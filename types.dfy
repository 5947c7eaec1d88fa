/**
 * The records shared by the market-data structures: orders, trades, OHLCV bars,
 * and the error outcomes of the operations that throw.
 *
 * Prices are decimal strings in the program. A level or a summary is keyed by
 * the raw string, while comparisons and arithmetic use its exact decimal value,
 * so a price is modelled as the pair of both. Volumes and counter amounts are
 * only ever used arithmetically and are modelled by their exact value.
 */
module Types {

  datatype Option<+T> = None | Some(value: T)

  /** `OrderType`: the two sides of a book. */
  datatype Side = Ask | Bid

  /** A decimal string together with its exact value. */
  datatype Price = Price(text: string, value: real)

  /** `Order`: id, price, volume and type. */
  datatype Order = Order(id: string, price: Price, volume: real, side: Side)

  /** The metadata the feed attaches to a recorded trade. */
  datatype TradeMeta = TradeMeta(orderId: string, orderType: Side)

  /** `Trade`: an executed trade as kept in the ledger and fed to the candles. */
  datatype Trade = Trade(price: Price, volume: real, timestamp: int, counter: real, meta: Option<TradeMeta>)

  /** `OHLCV`: one bar, `timestamp` being the start of its bucket in milliseconds. */
  datatype Bar = Bar(open: Price, close: Price, high: Price, low: Price, volume: real, timestamp: int)

  /**
   * The exceptions the structures throw; `MissingField` is the `TypeError` of
   * reading a field that a stream message does not carry.
   */
  datatype Error = DuplicateOrderId | OrderNotFound | SideMismatch | CrossSideCollision | MissingField

  /** A call that either completes or throws. */
  datatype Outcome = Pass | Fail(error: Error)

  /** A call that either returns a value or throws. */
  datatype Result<+T> = Ok(value: T) | Err(error: Error)

  function Min(a: int, b: int): int { if a <= b then a else b }

  /**
   * The number of elements `Array.prototype.slice(0, end)` keeps from an array
   * of length `n`: all of them when `end` is undefined, a negative `end`
   * counting back from the end.
   */
  function PrefixLength(n: nat, end: Option<int>): (k: nat)
    ensures k <= n
    ensures end.None? ==> k == n
    ensures end.Some? && end.value >= 0 ==> k == Min(end.value, n)
    ensures end.Some? && end.value < 0 ==> k == if n + end.value < 0 then 0 else n + end.value
  {
    match end
    case None => n
    case Some(e) =>
      if e >= 0 then (if e < n then e else n)
      else if n + e < 0 then 0 else n + e
  }

  /** `s.slice(0, end)`. */
  function SlicePrefix<T>(s: seq<T>, end: Option<int>): seq<T>
  {
    s[..PrefixLength(|s|, end)]
  }

  predicate Distinct<T(==)>(s: seq<T>)
  {
    forall i, j | 0 <= i < j < |s| :: s[i] != s[j]
  }
}
