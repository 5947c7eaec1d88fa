# Market-data structures of the trading dashboard server, in Dafny

This project models the in-memory market-data structures of the dashboard's
server (`packages/server/src/classes`) and proves what they promise:

- **`OrderBook`**: one doubly-linked list of orders per side (asks ascending
  by price, bids descending, first come first served at equal prices), an
  id index, a per-second trade ledger with a watermark, per-price summaries,
  and the `ticker` getter.
  - `BookModel` (`book_model.dfy`) states it on values: a `Book` is an arena
    of orders, the node positions of each list, the index and the ledger.
  - `LinkedBook.OrderBook` (`linked_book.dfy`, over the node arena of
    `arena.dfy`) is the class with `previous`/`next` links and head
    pointers. Each of its methods is proved to change its state exactly as
    the matching `BookModel` function says.
- **`Orders`**: the price-level index of one side.
  - `PriceLevels` (`price_levels.dfy`) is the value model.
  - `SideOrders.Orders` (`orders.dfy`) is the class.
  - `Sorting` (`sorting.dfy`) is the stable sort that `getPrices` and
    `Candles.calculate` rely on.
- **`OrdersBook`**: the two-sided wrapper. `TwoSided` states it on values
  and `BookSides.OrdersBook` is the class (`orders_book.dfy`).
- **`Candles`**: bucketing trades into OHLCV bars, and the contiguous bar
  series that `append` and `load` maintain.
  - `CandleMath` (`candle_math.dfy`) is the loop of `calculate` as a fold,
    with reference bars per bucket.
  - `CandleOrder` (`candle_order.dfy`) relates the bars to the unsorted
    input.
  - `CandleSeries` (`candles.dfy`) is the series and the `Candles` class.
- **The Luno stream handler**: the sequence check, the snapshot install,
  and the delete/create/trade updates of one ticker, plus the close
  handler. `LunoFeed` (`luno.dfy`) gives them as a step function `Handle`
  and as the class `Ticker`, whose `OnMessage` is proved to be that step.

Prices are `Price(text, value)`: the decimal string the source keys levels
and summaries by, together with its exact value. Volumes and amounts are
exact `real`s, standing for decimal.js and big.js arithmetic. A call that
throws returns `Fail(error)` (or `Threw(error)` in the handler) together
with the state the source leaves behind, including changes made before
the throw.

## Model

| member | source | states |
|---|---|---|
| Sorting.SortFacts | packages/server/src/classes/Candles/Candles.ts:24 | the sort used for `trades.sort` and `all_prices.sort` orders by key, is a permutation of its input, and keeps equal keys in input order |
| PriceLevels.SizeCountsKeys | packages/server/src/classes/Orders/Orders.ts:26-28 | `size` is the number of listed price levels |
| PriceLevels.EmptyBalanced | packages/server/src/classes/Orders/Orders.ts:8-14 | a new side satisfies the volume invariant |
| PriceLevels.AddRejects | packages/server/src/classes/Orders/Orders.ts:33-40 | `add` throws on an indexed id, else on an order of the other side, and a failed `add` changes nothing |
| PriceLevels.AddIndexes | packages/server/src/classes/Orders/Orders.ts:42 | a successful `add` makes `get(id)` return the order, adds one to `total` and leaves every other id as it was |
| PriceLevels.AddLevels | packages/server/src/classes/Orders/Orders.ts:44-56 | a new price string opens a level `{volume, [id]}` and `size` grows by one; an existing one gains the exact volume and the id at the end; other levels are untouched |
| PriceLevels.AddKeepsBalanced | packages/server/src/classes/Orders/Orders.ts:42-56 | adding a positive order keeps every level's volume the exact sum of its members and each indexed order listed in its level |
| PriceLevels.IndexOf | packages/server/src/classes/Orders/Orders.ts:110 | `indexOf` gives the first position of the id, or -1 exactly when it is absent |
| PriceLevels.ReduceUnknown | packages/server/src/classes/Orders/Orders.ts:93-96 | `reduce` of an unknown id throws and changes nothing |
| PriceLevels.ReduceAmounts | packages/server/src/classes/Orders/Orders.ts:92-117 | `reduce` lowers the order and its level by exactly the amount; the order leaves the index only when exactly zero is left, otherwise it keeps the new volume; the level goes exactly when its volume reaches zero or its ids run out; other levels are untouched; every other id keeps its index entry; a level that stays keeps its ids, less the order's own (as `RemoveId` takes it) when the order is dropped |
| PriceLevels.UnlistTexts | packages/server/src/classes/Orders/Orders.ts:115 | `_prices.delete` removes exactly that price string from the key order and keeps the others distinct |
| PriceLevels.ReducePartKeepsBalanced | packages/server/src/classes/Orders/Orders.ts:99-107 | a reduce by a positive amount below the order's volume keeps the volume invariant |
| PriceLevels.ReduceAllKeepsBalanced | packages/server/src/classes/Orders/Orders.ts:99-116 | a reduce by the order's whole volume keeps the invariant: the order, its id and an emptied level go |
| PriceLevels.DelForgets | packages/server/src/classes/Orders/Orders.ts:62-69 | `del` throws on an unknown id; otherwise afterwards `get` gives nothing and `has` is false, `get` of every other id is unchanged, and the order's level goes exactly when what is left of its volume is zero or no id is left; a level listing only that order always goes |
| PriceLevels.DelDropsLevel | packages/server/src/classes/Orders/Orders.ts:62-69 | while each level's volume is the sum of its positive orders, `del` removes the order's level exactly when the order is the only one it lists |
| PriceLevels.GetPricesFacts | packages/server/src/classes/Orders/Orders.ts:123-145 | `getPrices(count)` lists `slice(0, count)` of the levels by descending price, each with its level's volume and ids, and a cut listing is a prefix of the uncut one, so it holds the highest levels; uncut, it lists every level once, and equal values keep insertion order |
| PriceLevels.TotalCountsIds | packages/server/src/classes/Orders/Orders.ts:19-21 | under the invariant, `total` equals the number of ids across all levels |
| PriceLevels.SpliceDropsAnotherOrder | packages/server/src/classes/Orders/Orders.ts:110-111 | the concrete run under Findings: the level ends up listing only `c` while `d` stays indexed |
| PriceLevels.RemoveId | packages/server/src/classes/Orders/Orders.ts:110-111 | the intended removal takes out exactly one occurrence of a listed id and nothing otherwise |
| PriceLevels.RemoveIdAgrees | packages/server/src/classes/Orders/Orders.ts:110-111 | for a listed id, the splice as written removes what `RemoveId` removes |
| PriceLevels.ReduceFixedKeepsOthers | packages/server/src/classes/Orders/Orders.ts:92-117 | the intended `reduce` drops from a surviving level no listed id but the order's own, and succeeds or throws exactly as written |
| PriceLevels.ReduceFixedAgrees | packages/server/src/classes/Orders/Orders.ts:92-117 | while the volume invariant holds, the intended `reduce` is the written one |
| PriceLevels.FixedRunKeepsListed | packages/server/src/classes/Orders/Orders.ts:110-111 | on the Findings input, the intended `reduce` leaves the level listing `c` and `d` |
| SideOrders.Orders.constructor | packages/server/src/classes/Orders/Orders.ts:12-14 | a new `Orders` has no orders and no levels and is of the given side |
| SideOrders.Orders.Total | packages/server/src/classes/Orders/Orders.ts:19-21 | `total` is the number of ids the levels list, whenever the invariant holds |
| SideOrders.Orders.Size | packages/server/src/classes/Orders/Orders.ts:26-28 | `size` is the number of levels |
| SideOrders.Orders.Get | packages/server/src/classes/Orders/Orders.ts:74-80 | `get` is the index lookup, `null` as `None` |
| SideOrders.Orders.Has | packages/server/src/classes/Orders/Orders.ts:85-87 | `has` holds exactly when `get` finds the id |
| SideOrders.Orders.Add | packages/server/src/classes/Orders/Orders.ts:33-57 | the map updates leave the state `PriceLevels.Add` describes, with its outcome |
| SideOrders.Orders.Reduce | packages/server/src/classes/Orders/Orders.ts:92-118 | the in-place updates leave the state `PriceLevels.Reduce` describes |
| SideOrders.Orders.Del | packages/server/src/classes/Orders/Orders.ts:62-69 | `del` leaves the state `PriceLevels.Del` describes: throw, or reduce by the whole volume |
| SideOrders.Orders.GetPrices | packages/server/src/classes/Orders/Orders.ts:123-145 | `getPrices` returns the listing `PriceLevels.GetPricesFacts` characterises |
| TwoSided.FindFacts | packages/server/src/classes/OrdersBook/OrdersBook.ts:22-33 | `find` throws exactly when both sides hold the id; otherwise it names the one side that holds it, or nothing |
| TwoSided.AddFromKeeps | packages/server/src/classes/OrdersBook/OrdersBook.ts:7-15 | a batch `add` never drops or alters an order already held, even when it throws |
| TwoSided.AddFromHoldsAll | packages/server/src/classes/OrdersBook/OrdersBook.ts:7-15 | a batch `add` that does not throw leaves each order of the batch on the side of its type |
| TwoSided.AddIsNotAtomic | packages/server/src/classes/OrdersBook/OrdersBook.ts:8-14 | a batch repeating an id throws at the repeat and keeps the first order |
| TwoSided.CrossSideIdReachesFind | packages/server/src/classes/OrdersBook/OrdersBook.ts:7-15 | one batch can put the same id on both sides without error, after which `find` throws |
| TwoSided.DelForgets | packages/server/src/classes/OrdersBook/OrdersBook.ts:17-20 | `del` of an id on neither side changes nothing; otherwise the holding side forgets it, every other order of that side keeps its entry, and the other side is unchanged; an id on both sides throws |
| TwoSided.TradeReduces | packages/server/src/classes/OrdersBook/OrdersBook.ts:35-38 | `trade` is the holding side's `reduce`: it lowers the order and its level by the volume, removing the order at exactly zero; every other order of that side keeps its entry, and the other side is unchanged; an id on neither side changes nothing, and one on both sides throws before any change |
| TwoSided.AddFromKeepsBalanced | packages/server/src/classes/OrdersBook/OrdersBook.ts:7-15 | a batch of positive orders keeps both sides' volume invariant, however far it gets |
| TwoSided.DelKeepsBalanced | packages/server/src/classes/OrdersBook/OrdersBook.ts:17-20 | `del` keeps both sides' invariant |
| TwoSided.TradeKeepsBalanced | packages/server/src/classes/OrdersBook/OrdersBook.ts:35-38 | a `trade` of a positive volume up to the order's own keeps both sides' invariant |
| BookSides.OrdersBook.constructor | packages/server/src/classes/OrdersBook/OrdersBook.ts:4-5 | a new book has two fresh empty sides |
| BookSides.OrdersBook.Find | packages/server/src/classes/OrdersBook/OrdersBook.ts:22-33 | `find` on the two owned sides is `TwoSided.Find` |
| BookSides.OrdersBook.Add | packages/server/src/classes/OrdersBook/OrdersBook.ts:7-15 | the `forEach` routes order after order and stops at the first throw, as `TwoSided.AddFrom` says |
| BookSides.OrdersBook.Del | packages/server/src/classes/OrdersBook/OrdersBook.ts:17-20 | `del` changes the sides as `TwoSided.Del` says |
| BookSides.OrdersBook.Trade | packages/server/src/classes/OrdersBook/OrdersBook.ts:35-38 | `trade` changes the sides as `TwoSided.Trade` says |
| BookSides.OrdersBook.GetTopAsks | packages/server/src/classes/OrdersBook/OrdersBook.ts:40-42 | `getTopAsks` is the ask side's `getPrices`, so asks are listed by descending price |
| BookSides.OrdersBook.GetTopBids | packages/server/src/classes/OrdersBook/OrdersBook.ts:44-46 | `getTopBids` is the bid side's `getPrices` |
| BookModel.Empty | packages/server/src/classes/OrderBook.ts:19-35 | a book built without orders is well formed, with both sides and the index empty |
| BookModel.BuildKeepsShape | packages/server/src/classes/OrderBook.ts:32-35 | whatever the constructor's arguments, the book it builds is well formed, also when it throws |
| BookModel.BuildInstalls | packages/server/src/classes/OrderBook.ts:32-35 | built from distinct ids, the book holds the given asks and bids in the given order, each typed by its side, with no trade recorded; an absent argument counts as no orders |
| BookModel.InsertPos | packages/server/src/classes/OrderBook.ts:204-221 | the walk of `add` stops before the first order the new one beats strictly, or at the tail |
| BookModel.InsertPosUnique | packages/server/src/classes/OrderBook.ts:204-221 | that position is the only one with no strictly worse order ahead and a strictly worse order at it |
| BookModel.AddKeepsShape | packages/server/src/classes/OrderBook.ts:190-230 | `add` keeps the book well formed, whether the id is new or not |
| BookModel.AddSplicesAtInsertPos | packages/server/src/classes/OrderBook.ts:199-222 | on a non-empty side, `add` splices the order in at `InsertPos` and leaves the other side alone |
| BookModel.InsertKeepsSorted | packages/server/src/classes/OrderBook.ts:204-221 | inserting at `InsertPos` keeps a side in price priority, with every order behind ranking worse |
| BookModel.AddKeepsPriceTimeOrder | packages/server/src/classes/OrderBook.ts:190-230 | `add` keeps each side sorted (asks ascending, bids descending) and puts the new order behind every order of equal price |
| BookModel.AddToEmptySideIsUnlinked | packages/server/src/classes/OrderBook.ts:199 | as written: an add to an empty side makes the order findable by `getOrder`, but the side still lists nothing |
| BookModel.AddDuplicateStillSplices | packages/server/src/classes/OrderBook.ts:224-226 | as written: an add with an indexed id throws, the index keeps the old node, yet the side lists one order more |
| BookModel.AddFixedAgrees | packages/server/src/classes/OrderBook.ts:190-230 | on a non-empty side with a new id, the corrected `add` is the one written |
| BookModel.AddFixedInstalls | packages/server/src/classes/OrderBook.ts:190-230 | the corrected `add` rejects an indexed id without any change, and otherwise splices the order in at its place even on an empty side, keeping the side sorted and making it findable |
| BookModel.Delete | packages/server/src/classes/OrderBook.ts:236-255 | `delete` keeps the book well formed |
| BookModel.DeleteUnknown | packages/server/src/classes/OrderBook.ts:237-239 | `delete` of an id the index does not hold changes nothing |
| BookModel.DeleteRemovesOne | packages/server/src/classes/OrderBook.ts:236-255 | deleting a listed order removes exactly it from its side, leaves the other side and the ledger alone, and `getOrder` no longer finds it |
| BookModel.DeleteUnlinked | packages/server/src/classes/OrderBook.ts:236-255 | deleting an indexed order that no list holds changes neither side |
| BookModel.Reduce | packages/server/src/classes/OrderBook.ts:263-275 | `reduce` keeps the book well formed |
| BookModel.ReduceInPlace | packages/server/src/classes/OrderBook.ts:267-274 | a reduce leaving a positive volume keeps every order in place and lowers that order's volume by exactly the amount |
| BookModel.ReduceToNothingDeletes | packages/server/src/classes/OrderBook.ts:263-271 | `reduce` of an unknown id throws without change; a reduce to zero or below is `delete` |
| BookModel.Bucket | packages/server/src/classes/OrderBook.ts:174 | the bucket is a multiple of 1000 within the second holding the timestamp |
| BookModel.RecordTrade | packages/server/src/classes/OrderBook.ts:154-184 | `trade` keeps the book well formed |
| BookModel.RecordTradeAppends | packages/server/src/classes/OrderBook.ts:154-184 | `trade` appends the trade, with counter price times volume when absent, at the end of its second's bucket, moves the watermark there, and changes no other bucket, no order and no index entry |
| BookModel.GetTradesMembers | packages/server/src/classes/OrderBook.ts:287-300 | `getTrades(since)` returns exactly the trades of buckets a whole number of seconds after `since`, up to the watermark |
| BookModel.TradesFromMembers | packages/server/src/classes/OrderBook.ts:288-297 | the loop from bucket `t` collects exactly the buckets `t`, `t + 1000`, ... up to the watermark |
| BookModel.Reset | packages/server/src/classes/OrderBook.ts:344-349 | `reset` keeps a well-formed book well formed |
| BookModel.SlotOfFirst | packages/server/src/classes/OrderBook.ts:83 | `list.get(order.price)` finds the first summary of that price string, or none: the slot found holds the string and no earlier slot does |
| BookModel.SlotUnique | packages/server/src/classes/OrderBook.ts:83 | a summary whose price string no earlier summary has is the one `list.get` finds for that string |
| BookModel.SummarizeIdempotent | packages/server/src/classes/OrderBook.ts:80-96 | a new price string gets a summary `{price, volume, [id]}` at the end; an id already listed under its price changes nothing, whatever its volume; a new id adds exactly its volume and its id to its price's summary; no other summary changes, price strings stay distinct, and summarizing the same order twice is summarizing it once |
| BookModel.LinkFields | packages/server/src/classes/OrderBook.ts:100-120 | one turn of `_enlistOrders` appends the typed node, makes it the head or links it after `current`, indexes it and summarizes it |
| BookModel.LinkKeepsShape | packages/server/src/classes/OrderBook.ts:100-120 | that turn keeps the book well formed |
| BookModel.LinkView | packages/server/src/classes/OrderBook.ts:100-120 | after that turn the side lists the typed order last (alone for the first order) and the other side is unchanged |
| BookModel.EnlistFromStep | packages/server/src/classes/OrderBook.ts:104-106 | the setter throws at the first already indexed id and otherwise links the order and goes on |
| BookModel.EnlistInstalls | packages/server/src/classes/OrderBook.ts:98-121 | given new distinct ids, the setter makes the side exactly the given orders in the given order, typed by the side, each findable, with the other side and the ledger unchanged |
| LinkedBook.OrderBook.constructor | packages/server/src/classes/OrderBook.ts:19-35 | a new book without arguments is the empty book |
| LinkedBook.OrderBook.WithOrders | packages/server/src/classes/OrderBook.ts:32-35 | `new OrderBook(asks, bids)` runs the `asks` setter when asks are given, then the `bids` setter when bids are given, leaving the book and outcome `BookModel.Build` describes |
| LinkedBook.OrderBook.Allocate | packages/server/src/classes/OrderBook.ts:197 | `new LinkedNode` adds an unlinked, unindexed node holding the order |
| LinkedBook.OrderBook.InsertBefore | packages/server/src/classes/OrderBook.ts:127-138 | `_insertBefore` splices the node in before the `k`-th of its side, moving the head when that was the head |
| LinkedBook.OrderBook.InsertAfter | packages/server/src/classes/OrderBook.ts:140-148 | `_insertAfter` splices the node in after the `k`-th of its side |
| LinkedBook.OrderBook.Place | packages/server/src/classes/OrderBook.ts:193-222 | the walk of `add` leaves the book `BookModel.Placed` describes, with the node linked or, on an empty side, detached |
| LinkedBook.OrderBook.SettleBefore | packages/server/src/classes/OrderBook.ts:205-212 | the walk stopping at the first order the new one beats inserts before it |
| LinkedBook.OrderBook.SettleAfter | packages/server/src/classes/OrderBook.ts:213-216 | the walk reaching the tail inserts after it |
| LinkedBook.OrderBook.Add | packages/server/src/classes/OrderBook.ts:190-230 | the link updates of `add` leave the state `BookModel.Add` describes, with its outcome |
| LinkedBook.OrderBook.Delete | packages/server/src/classes/OrderBook.ts:236-255 | bridging the neighbours and advancing the head leaves the state `BookModel.Delete` describes |
| LinkedBook.OrderBook.GetOrder | packages/server/src/classes/OrderBook.ts:282-285 | `getOrder` is the order the index points at |
| LinkedBook.OrderBook.Reduce | packages/server/src/classes/OrderBook.ts:263-275 | `reduce` leaves the state `BookModel.Reduce` describes |
| LinkedBook.OrderBook.Top | packages/server/src/classes/OrderBook.ts:308-323 | `top(type, num)` returns the first `min(num, count)` orders of the side in list order, 10 when `num` is absent, none when it is not positive |
| LinkedBook.OrderBook.Count | packages/server/src/classes/OrderBook.ts:330-339 | `count` is the number of orders the side lists |
| LinkedBook.OrderBook.Reset | packages/server/src/classes/OrderBook.ts:344-349 | `reset` empties both sides, the index and the watermark and keeps trades and summaries |
| LinkedBook.OrderBook.Trade | packages/server/src/classes/OrderBook.ts:154-184 | `trade` leaves the state `BookModel.RecordTrade` describes |
| LinkedBook.OrderBook.GetTrades | packages/server/src/classes/OrderBook.ts:287-300 | the loop of `getTrades` computes `BookModel.GetTrades` |
| LinkedBook.OrderBook.Ticker | packages/server/src/classes/OrderBook.ts:48-62 | `ticker` is null unless both sides list orders; otherwise the two head prices, their exact difference, and the first trade of the watermark's bucket when there is one |
| LinkedBook.OrderBook.Enlist | packages/server/src/classes/OrderBook.ts:98-121 | the loop of `_enlistOrders` leaves the state and outcome `BookModel.EnlistFrom` describes |
| LinkedBook.OrderBook.EnlistOne | packages/server/src/classes/OrderBook.ts:100-120 | one turn of that loop either stops at an indexed id without change or links the order and moves `current` to it |
| LinkedBook.OrderBook.LinkOrder | packages/server/src/classes/OrderBook.ts:101-119 | the body of the loop for a new id does what `BookModel.Link` says |
| LinkedBook.OrderBook.Attach | packages/server/src/classes/OrderBook.ts:108-117 | the node becomes the head for the first order, else the successor of `current` |
| LinkedBook.OrderBook.Restart | packages/server/src/classes/OrderBook.ts:109-112 | the first order's node becomes the whole side |
| LinkedBook.OrderBook.IndexNode | packages/server/src/classes/OrderBook.ts:106 | `_indexes.set` maps the id to the node and changes nothing else |
| LinkedBook.OrderBook.SummarizeOrder | packages/server/src/classes/OrderBook.ts:80-96 | `_summarizeOrder` leaves the summaries `BookModel.Summarize` describes |
| LinkedBook.OrderBook.GetSummarizeOrder | packages/server/src/classes/OrderBook.ts:72-75 | `getSummarizeOrder` lists the side's summaries in insertion order, cut as `slice(0, len)` cuts |
| CandleMath.BucketMonotone | packages/server/src/classes/Candles/Candles.ts:27 | later timestamps never fall in earlier buckets |
| CandleMath.ElseIfIsIndependent | packages/server/src/classes/Candles/Candles.ts:44-48 | while `low <= high`, the `if`/`else if` update of high and low equals two independent comparisons, and keeps `low <= high` |
| CandleMath.HighIsMax | packages/server/src/classes/Candles/Candles.ts:44-45 | the high of a run is the largest price in it and is some trade's price |
| CandleMath.LowIsMin | packages/server/src/classes/Candles/Candles.ts:46-47 | the low of a run is the smallest price in it and is some trade's price |
| CandleMath.CandleSnoc | packages/server/src/classes/Candles/Candles.ts:41-49 | updating a bucket's bar with one more trade gives the reference bar of the longer run |
| CandleMath.RunMembers | packages/server/src/classes/Candles/Candles.ts:27 | a bucket's run holds exactly the trades whose timestamp falls in it |
| CandleMath.Fold | packages/server/src/classes/Candles/Candles.ts:26-50 | every bucket the loop lists has a bar |
| CandleMath.FoldMeaning | packages/server/src/classes/Candles/Candles.ts:26-50 | after the loop, a bucket has a bar exactly when some trade falls in it, and that bar is the reference bar of the bucket's trades in input order |
| CandleMath.FoldKeys | packages/server/src/classes/Candles/Candles.ts:29-40 | the map's insertion order lists each bucket with a bar once, and only buckets of some trade |
| CandleMath.FoldAscending | packages/server/src/classes/Candles/Candles.ts:24-52 | over trades in timestamp order, the buckets are inserted strictly ascending |
| CandleMath.AggregateListsOrder | packages/server/src/classes/Candles/Candles.ts:52 | `[...candles.values()]` lists the bars in insertion order, each timestamped with its bucket |
| CandleMath.AggregateFacts | packages/server/src/classes/Candles/Candles.ts:22-53 | over sorted trades, the bars ascend strictly and each is its bucket's reference bar, and every trade's bucket has its bar |
| CandleMath.AggregateEmpty | packages/server/src/classes/Candles/Candles.ts:22-53 | `calculate([], interval)` is `[]` |
| CandleMath.CandleFacts | packages/server/src/classes/Candles/Candles.ts:31-49 | a reference bar opens at the run's first price, closes at its last, sums its volumes exactly, and its high and low bound every price and are attained |
| CandleOrder.VolumePermutation | packages/server/src/classes/Candles/Candles.ts:43 | the summed volume does not depend on the order of the trades |
| CandleOrder.RunPermutation | packages/server/src/classes/Candles/Candles.ts:24 | sorting keeps each bucket's trades, in some order |
| CandleOrder.CalculatedBar | packages/server/src/classes/Candles/Candles.ts:22-53 | each bar of `calculate(s)` is the reference bar of its bucket in the sorted trades |
| CandleOrder.CalculatedBuckets | packages/server/src/classes/Candles/Candles.ts:22-53 | the bars of `calculate(s)` ascend strictly by timestamp, one per bucket, and every trade of `s` has its bucket's bar |
| CandleOrder.NoFillerBars | packages/server/src/classes/Candles/Candles.ts:22-53 | every bar of `calculate(s)` is the bucket of some trade of `s` |
| CandleOrder.FirstOfBucket | packages/server/src/classes/Candles/Candles.ts:31-40 | in sorted trades the bar-opening trade is the earliest of its bucket and the first of its millisecond |
| CandleOrder.LastOfBucket | packages/server/src/classes/Candles/Candles.ts:42 | in sorted trades the last trade of a bucket is its latest and the last of its millisecond |
| CandleOrder.OpenIsEarliest | packages/server/src/classes/Candles/Candles.ts:24-40 | each bar opens at the price of the earliest trade of its bucket in `s`, the first in input order among trades of that millisecond |
| CandleOrder.CloseIsLatest | packages/server/src/classes/Candles/Candles.ts:24-42 | each bar closes at the price of the latest trade of its bucket in `s`, the last in input order among trades of that millisecond |
| CandleOrder.BarSpansBucket | packages/server/src/classes/Candles/Candles.ts:43-48 | each bar's volume is the exact sum over its bucket, and its high and low bound every price of the bucket and are attained by some trade |
| CandleSeries.AppendedKeepsContiguous | packages/server/src/classes/Candles/Candles.ts:141-164 | `append` returns 1 exactly when the series is empty or the bar is one interval after the last; a rejection changes nothing; the series stays contiguous |
| CandleSeries.AppendAllFacts | packages/server/src/classes/Candles/Candles.ts:117-119 | appending a page keeps the bars already there and contiguity, and `added` grows by the number of bars taken, all from the page |
| CandleSeries.AppendAllTakesContinuation | packages/server/src/classes/Candles/Candles.ts:117-119 | a page that continues the series contiguously is taken whole |
| CandleSeries.AppendAllRejectsGap | packages/server/src/classes/Candles/Candles.ts:117-119 | a page without the next bar of a non-empty series adds nothing |
| CandleSeries.ContiguousAscending | packages/server/src/classes/Candles/Candles.ts:141-155 | a contiguous series ascends strictly by timestamp |
| CandleSeries.IndexedFacts | packages/server/src/classes/Candles/Candles.ts:141-155 | `_index` maps each stored bar's timestamp to that bar and holds no other key |
| CandleSeries.Fetch | packages/server/src/classes/Candles/Candles.ts:94-107 | `load` fetches from the given timestamp, or else the latest bar's (a 0 counts as absent), only when not loading and a whole interval has passed; an empty series without a timestamp never fetches |
| CandleSeries.FinishFacts | packages/server/src/classes/Candles/Candles.ts:108-133 | after a page, `added` grows by the bars gained; a non-array or empty page ends the load unchanged; a further fetch starts one interval after the new latest bar |
| CandleSeries.FinishRetriesGap | packages/server/src/classes/Candles/Candles.ts:121-129 | a non-empty page without the next bar leaves the series unchanged and fetches from the same timestamp again |
| CandleSeries.Candles.constructor | packages/server/src/classes/Candles/Candles.ts:55-57 | a new series is empty, not loading and not ready |
| CandleSeries.Candles.Calculate | packages/server/src/classes/Candles/Candles.ts:22-53 | `calculate` sorts the caller's array in place by timestamp and returns the bars of the sorted trades |
| CandleSeries.Candles.SortByTime | packages/server/src/classes/Candles/Candles.ts:24 | `trades.sort` leaves the array stably sorted by timestamp |
| CandleSeries.Candles.TallyTrades | packages/server/src/classes/Candles/Candles.ts:26-50 | the loop over the trades fills the map as `CandleMath.Fold` says |
| CandleSeries.Candles.GetBars | packages/server/src/classes/Candles/Candles.ts:178-180 | `getBars` is `calculate` with the series' interval |
| CandleSeries.Candles.Latest | packages/server/src/classes/Candles/Candles.ts:62-66 | `latest` is the last bar, or `undefined` exactly when the series is empty |
| CandleSeries.Candles.LatestIsNewest | packages/server/src/classes/Candles/Candles.ts:62-66 | the latest bar is later than every other bar and is indexed by its timestamp |
| CandleSeries.Candles.Size | packages/server/src/classes/Candles/Candles.ts:78-80 | `size` is the number of bars, 0 exactly when there is no latest bar |
| CandleSeries.Candles.Ready | packages/server/src/classes/Candles/Candles.ts:71-73 | `ready` is the initialized flag |
| CandleSeries.Candles.SetReady | packages/server/src/classes/Candles/Candles.ts:169-171 | `setReady` sets that flag |
| CandleSeries.Candles.Append | packages/server/src/classes/Candles/Candles.ts:141-164 | `append` keeps the series contiguous and indexed, takes the bar as `Appended` says, and indexes it exactly when it returns 1 |
| CandleSeries.Candles.LoadStart | packages/server/src/classes/Candles/Candles.ts:94-107 | the first half of `load` decides the fetch by `Fetch` and sets `_loading` when it fetches |
| CandleSeries.Candles.AppendPage | packages/server/src/classes/Candles/Candles.ts:117-119 | the `forEach` of `load` appends the page bar by bar and counts what was added |
| CandleSeries.Candles.LoadFinish | packages/server/src/classes/Candles/Candles.ts:108-133 | the second half of `load` clears `_loading` and leaves the series and outcome `Finish` describes |
| LunoFeed.Snapshot | packages/server/src/classes/Luno/Luno.ts:184-193 | the snapshot branch leaves a well-formed book |
| LunoFeed.ApplyTrade | packages/server/src/classes/Luno/Luno.ts:217-238 | a trade whose maker is not in the book changes nothing |
| LunoFeed.ApplyFrom | packages/server/src/classes/Luno/Luno.ts:216-238 | the trade updates leave a well-formed book |
| LunoFeed.Update | packages/server/src/classes/Luno/Luno.ts:195-238 | an update leaves a well-formed book, whether it completes or throws |
| LunoFeed.Handle | packages/server/src/classes/Luno/Luno.ts:155-193 | the socket is terminated exactly for an out-of-order message, which changes nothing; any other message records its sequence and sets `initial`; with `last_sequence` 0 every message is accepted |
| LunoFeed.Close | packages/server/src/classes/Luno/Luno.ts:136-139 | the close handler zeroes the sequence and empties both sides, keeping `initial` |
| LunoFeed.CloseFixed | packages/server/src/classes/Luno/Luno.ts:136-139 | the intended close also clears `initial` |
| BookModel.EnlistKeepsShape | packages/server/src/classes/OrderBook.ts:37-43 | the `asks` and `bids` setters leave a well-formed book, also when they throw |
| BookModel.EnlistInstallsAny | packages/server/src/classes/OrderBook.ts:37-43 | given new distinct ids, a setter installs exactly the given orders, and an empty list changes nothing |
| LunoFeed.FirstMessageInstalls | packages/server/src/classes/Luno/Luno.ts:184-193 | the first accepted message installs the asks and the bids exactly as given, records no trade, and sets `initial` |
| LunoFeed.TradeRecordsThenReduces | packages/server/src/classes/Luno/Luno.ts:225-237 | a trade on a known maker is recorded at the maker's price with the trade's volume and counter, then the maker is reduced by that volume, removed at zero or below |
| LunoFeed.SkippedTradesChangeNothing | packages/server/src/classes/Luno/Luno.ts:216-222 | trade updates whose makers are absent change nothing |
| LunoFeed.ReconnectSnapshotThrows | packages/server/src/classes/Luno/Luno.ts:136-139 | as written: after a close, the new connection's snapshot is read as an update, throws on the missing `trade_updates`, and the book stays empty |
| LunoFeed.ReconnectFixedInstalls | packages/server/src/classes/Luno/Luno.ts:136-139 | with the intended close, the new connection's snapshot is installed again |
| LunoFeed.Ticker.OnMessage | packages/server/src/classes/Luno/Luno.ts:155-258 | the handler changes the ticker and the book exactly as `Handle` says |
| LunoFeed.Ticker.Install | packages/server/src/classes/Luno/Luno.ts:184-193 | the snapshot branch changes the book as `Snapshot` says |
| LunoFeed.Ticker.ApplyUpdate | packages/server/src/classes/Luno/Luno.ts:195-249 | the update branch changes the book as `Update` says |
| LunoFeed.Ticker.ApplyTrades | packages/server/src/classes/Luno/Luno.ts:216-238 | the `forEach` over `trade_updates` changes the book as `ApplyFrom` says |
| LunoFeed.Ticker.ApplyOne | packages/server/src/classes/Luno/Luno.ts:217-237 | one trade update changes the book as `ApplyTrade` says |
| LunoFeed.Ticker.OnClose | packages/server/src/classes/Luno/Luno.ts:136-139 | the close handler changes the ticker as `Close` says |

## Left out

- WebSocket handling is not modelled: `createWSConnection`, the open and error handlers, the 5-second reconnect timer, and the `stream` bootstrap that creates the tickers. A terminated socket is the `Terminated` reply.
- The handler's `!ticker` lookups are left out; the model is the handler of a ticker that exists.
- The candle `load` trigger in the handler, the `event_lord.emit` of `top`, and the `status_update` logging are left out: they are fan-out and logging. The ticker's `candles` field is left out with them.
- The HTTP clients in `Luno.ts` and `Luno/api.ts` are left out. `load`'s fetch callback becomes the `page` parameter of `LoadFinish`.
- `Date.now()` in `load` becomes the `now` parameter of `LoadStart`.
- The asynchronous shape of `load` is left out: promise chaining and the 1-second pacing. Its two synchronous halves are `LoadStart` and `LoadFinish`.
- A rejected fetch is not modelled. In the source it leaves `_loading` set for good, because there is no `catch`; in the model it corresponds to never calling `LoadFinish`.
- Decimal and Big formatting and the 40-digit precision are left out. Amounts are exact reals, and a price is its string together with its exact value.
- The float `toNumber()` in the `getPrices` comparator is left out; the comparison is exact.
- `JSON.parse` and `parseInt` are left out: a message is given already parsed, and a sequence that does not parse (NaN) is not modelled.
- An empty `counter` string is falsy in the source; it is modelled as an absent counter.
- Object aliasing is left out. `Orders` stores and mutates the caller's order object, and `getOrder` hands out the node's own data object. The model copies values, so a caller's object is never changed behind its back.
- CandleSeries.Candles.Calculate: requires a positive interval. The source takes any number; the callers pass a `Timeframe` constant, which is positive.
- CandleSeries.Candles.GetBars: requires a positive interval, for the same reason.
- LunoFeed.FirstMessageInstalls: states the install only for snapshots whose ids are distinct. A snapshot that repeats an id throws, and `Snapshot` models that throw.
- `packages/server/src/index.ts`, everything under `packages/web`, `utils/log.ts`, `jest.config.js` and the type files are not part of this model. The type files become the datatypes of `types.dfy`.
- The `LinkedNode` record is the `Arena.Node` of the arena.
- LinkedBook.OrderBook.Top: `num` is an integer. The source's `for (let i = num; i > 0; i--)` also accepts a fractional `num` and then takes its ceiling in orders; the only caller passes 10.

## Findings

The operations follow the code as written. Each finding has two members: the as-written one proves the discrepancy on the model of that code, and the corrected one defines the evidently intended behaviour and proves it.

| source | as written | input that shows it | evidently intended | confidence | as-written member | corrected member |
|---|---|---|---|---|---|---|
| packages/server/src/classes/Orders/Orders.ts:110-111 | `price.ids.splice(price.ids.indexOf(order.id), 1)` removes the last id when the order is not listed, because `indexOf` gives -1 | add `a` and `b` (volume 1, price "1"); reduce `a` by 2, so the level hits zero and goes; add `c` and `d` at "1"; reduce `b` by 1: the level lists only `c`, while `d` stays indexed | remove the id only when it is listed | not executed | PriceLevels.SpliceDropsAnotherOrder | PriceLevels.ReduceFixedKeepsOthers |
| packages/server/src/classes/OrderBook.ts:199 | `list = order_node` rebinds a local, so an add to an empty side never links the node | `add` of an ask to a book without asks: `getOrder` finds it, `top(Ask)` is empty | make the node the head of the side | not executed | BookModel.AddToEmptySideIsUnlinked | BookModel.AddFixedInstalls |
| packages/server/src/classes/OrderBook.ts:224-226 | the duplicate-id check runs after the node is spliced in | `add` of an order whose id is already indexed, on a non-empty side: it throws, yet the side lists one order more | check the id before touching the list | not executed | BookModel.AddDuplicateStillSplices | BookModel.AddFixedInstalls |
| packages/server/src/classes/Luno/Luno.ts:136-139 | the close handler leaves `initial` set | after a close, the new connection's snapshot (asks and bids, no `trade_updates`): it is read as an update, throws a TypeError, and the book stays empty | clear `initial` so the snapshot is installed again | not executed | LunoFeed.ReconnectSnapshotThrows | LunoFeed.ReconnectFixedInstalls |
