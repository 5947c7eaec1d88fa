/**
 * The stream handler of Luno/Luno.ts for one currency pair: the ticker
 * record (`initial`, `last_sequence` and the order book) and what a stream
 * message and a closed connection do to it.
 *
 * Only the handler's effect on the ticker is modelled. `ws.terminate()`
 * becomes the `Terminated` reply. An exception the handler throws becomes a
 * `Threw` reply, with the changes made before the throw kept. Parsing,
 * logging, the candle trigger and the emitted event are not modelled.
 */
module LunoFeed {
  import opened Types
  import opened BookModel
  import LinkedBook

  /** `create_update`: a new order under `order_id`. */
  datatype CreateUpdate = CreateUpdate(orderId: string, side: Side, price: Price, volume: real)

  /** One of `trade_updates`: `base` is the traded volume; an empty `counter` string is `None`. */
  datatype TradeUpdate = TradeUpdate(base: real, counter: Option<real>, makerOrderId: string, takerOrderId: string)

  /**
   * A stream message after `JSON.parse`. Every message has a sequence and a
   * timestamp. The first one is the snapshot with `asks` and `bids`; the
   * later ones are updates with the three update fields. A field the
   * message does not carry, or carries as `null`, is `None`.
   */
  datatype Message = Message(
    sequence: int,
    timestamp: int,
    asks: Option<seq<Order>>,
    bids: Option<seq<Order>>,
    deleteUpdate: Option<string>,
    createUpdate: Option<CreateUpdate>,
    tradeUpdates: Option<seq<TradeUpdate>>)

  /** The ticker of one pair, as far as the handler uses it. */
  datatype Feed = Feed(initial: bool, lastSequence: int, book: Book)

  /** How the handler ends: normally, by terminating the socket, or by throwing. */
  datatype Reply = Handled | Terminated | Threw(error: Error)

  /** The sequence check: once a sequence has been seen, the next message must carry the next one. */
  predicate OutOfOrder(last: int, sequence: int)
  {
    last != 0 && last + 1 != sequence
  }

  function Created(c: CreateUpdate): Order
  {
    Order(c.orderId, c.price, c.volume, c.side)
  }

  // ---------------------------------------------------------------- the handler

  /** The snapshot: reset the book, then install the asks and the bids as given. */
  function Snapshot(b: Book, m: Message): (r: (Book, Reply))
    requires WellFormed(b)
    ensures WellFormed(r.0)
  {
    var z := Reset(b);
    if m.asks.None? then (z, Threw(MissingField))
    else
      var a := Enlist(z, Ask, m.asks.value);
      EnlistKeepsShape(z, Ask, m.asks.value, 0, a.0);
      if a.1.Fail? then (a.0, Threw(a.1.error))
      else if m.bids.None? then (a.0, Threw(MissingField))
      else
        var c := Enlist(a.0, Bid, m.bids.value);
        EnlistKeepsShape(a.0, Bid, m.bids.value, 0, c.0);
        if c.1.Fail? then (c.0, Threw(c.1.error)) else (c.0, Handled)
  }

  /**
   * One trade update: a maker not in the book is skipped; a found maker has
   * the trade recorded at its price and is then reduced by the traded volume.
   */
  function ApplyTrade(b: Book, ts: int, t: TradeUpdate): (r: Book)
    requires WellFormed(b)
    ensures WellFormed(r)
    ensures GetOrder(b, t.makerOrderId).None? ==> r == b
  {
    match GetOrder(b, t.makerOrderId)
    case None => b
    case Some(o) =>
      var recorded := RecordTrade(b, ts, o.price, t.base, t.counter, Some(TradeMeta(o.id, o.side)));
      Reduce(recorded, o.id, t.base).0
  }

  /** The trade updates from the `i`-th on, in array order. */
  function ApplyFrom(b: Book, ts: int, trades: seq<TradeUpdate>, i: nat): (r: Book)
    requires WellFormed(b) && i <= |trades|
    ensures WellFormed(r)
    decreases |trades| - i
  {
    if i == |trades| then b else ApplyFrom(ApplyTrade(b, ts, trades[i]), ts, trades, i + 1)
  }

  /** An update: the delete, then the create, then the trades. */
  function Update(b: Book, m: Message): (r: (Book, Reply))
    requires WellFormed(b)
    ensures WellFormed(r.0)
  {
    var deleted := if m.deleteUpdate.Some? then Delete(b, m.deleteUpdate.value) else b;
    var created := if m.createUpdate.Some? then Add(deleted, Created(m.createUpdate.value)) else (deleted, Pass);
    assert WellFormed(created.0) by {
      if m.createUpdate.Some? {
        AddKeepsShape(deleted, Created(m.createUpdate.value));
      }
    }
    if created.1.Fail? then (created.0, Threw(created.1.error))
    else if m.tradeUpdates.None? then (created.0, Threw(MissingField))
    else (ApplyFrom(created.0, m.timestamp, m.tradeUpdates.value, 0), Handled)
  }

  /**
   * The message handler. An out-of-order message terminates the socket and
   * changes nothing; any other message is accepted, its sequence recorded,
   * and handled as the snapshot the first time, as an update afterwards.
   */
  function Handle(f: Feed, m: Message): (r: (Feed, Reply))
    requires WellFormed(f.book)
    ensures OutOfOrder(f.lastSequence, m.sequence) <==> r.1 == Terminated
    ensures OutOfOrder(f.lastSequence, m.sequence) ==> r.0 == f
    ensures !OutOfOrder(f.lastSequence, m.sequence) ==> r.0.lastSequence == m.sequence && r.0.initial
    ensures f.lastSequence == 0 ==> r.1 != Terminated
    ensures WellFormed(r.0.book)
  {
    if OutOfOrder(f.lastSequence, m.sequence) then (f, Terminated)
    else if !f.initial then
      var s := Snapshot(f.book, m);
      (Feed(true, m.sequence, s.0), s.1)
    else
      var u := Update(f.book, m);
      (Feed(f.initial, m.sequence, u.0), u.1)
  }

  /** The close handler: forget the sequence and reset the book; `initial` stays as it was. */
  function Close(f: Feed): (r: Feed)
    ensures r.lastSequence == 0 && r.initial == f.initial && r.book == Reset(f.book)
    ensures WellFormed(f.book) ==> WellFormed(r.book) && View(r.book, Ask) == [] && View(r.book, Bid) == []
  {
    f.(lastSequence := 0, book := Reset(f.book))
  }

  /** The close handler as evidently intended: the next connection starts with a snapshot again. */
  function CloseFixed(f: Feed): (r: Feed)
    ensures r.lastSequence == 0 && !r.initial && r.book == Reset(f.book)
  {
    Feed(false, 0, Reset(f.book))
  }


  // ---------------------------------------------------------------- properties


  /**
   * The first accepted message installs the snapshot: the asks and the bids
   * exactly as given, each typed by its side, nothing else applied (no trade
   * recorded), and `initial` set.
   */
  lemma FirstMessageInstalls(f: Feed, m: Message)
    requires WellFormed(f.book) && !f.initial && !OutOfOrder(f.lastSequence, m.sequence)
    requires m.asks.Some? && m.bids.Some? && DistinctIds(m.asks.value, m.bids.value)
    ensures var (g, reply) := Handle(f, m);
            && reply == Handled && g.initial && g.lastSequence == m.sequence
            && View(g.book, Ask) == Typed(m.asks.value, Ask)
            && View(g.book, Bid) == Typed(m.bids.value, Bid)
            && g.book.trades == f.book.trades
  {
    var z := Reset(f.book);
    var asks, bids := m.asks.value, m.bids.value;
    assert View(z, Ask) == [] && View(z, Bid) == [];
    EnlistInstallsAny(z, Ask, asks);
    var a := Enlist(z, Ask, asks).0;
    assert z.index.Keys == {};
    BidsStayFresh(a, asks, bids);
    EnlistInstallsAny(a, Bid, bids);
    assert Typed([], Ask) == [] && Typed([], Bid) == [];
  }


  /** A trade update whose maker is in the book records the trade at the maker's price, then reduces the maker. */
  lemma TradeRecordsThenReduces(b: Book, ts: int, t: TradeUpdate)
    requires WellFormed(b) && GetOrder(b, t.makerOrderId).Some?
    ensures var o := GetOrder(b, t.makerOrderId).value;
            var r := ApplyTrade(b, ts, t);
            && r.last == BookModel.Bucket(ts)
            && Bucket(ts) in r.trades && |r.trades[Bucket(ts)]| > 0
            && r.trades[Bucket(ts)][|r.trades[Bucket(ts)]| - 1]
                 == Types.Trade(o.price, t.base, ts, Counter(o.price, t.base, t.counter), Some(TradeMeta(t.makerOrderId, o.side)))
            && GetOrder(r, t.makerOrderId) == (if o.volume - t.base > 0.0 then Some(o.(volume := o.volume - t.base)) else None)
  {
    var o := GetOrder(b, t.makerOrderId).value;
    assert o.id == t.makerOrderId;
    var recorded := RecordTrade(b, ts, o.price, t.base, t.counter, Some(TradeMeta(o.id, o.side)));
    RecordTradeAppends(b, ts, o.price, t.base, t.counter, Some(TradeMeta(o.id, o.side)));
    assert GetOrder(recorded, o.id) == Some(o);
    if o.volume - t.base > 0.0 {
      ReduceInPlace(recorded, o.id, t.base, Ask);
    } else {
      ReduceToNothingDeletes(recorded, o.id, t.base);
    }
  }

  /** Trade updates whose makers are all absent change nothing, and the rest still run after a skipped one. */
  lemma {:induction false} SkippedTradesChangeNothing(b: Book, ts: int, trades: seq<TradeUpdate>, i: nat)
    requires WellFormed(b) && i <= |trades|
    requires forall j | i <= j < |trades| :: GetOrder(b, trades[j].makerOrderId).None?
    ensures ApplyFrom(b, ts, trades, i) == b
    decreases |trades| - i
  {
    if i < |trades| {
      SkippedTradesChangeNothing(b, ts, trades, i + 1);
    }
  }

  /**
   * After a close, `initial` is still set, so the new connection's snapshot
   * (a message without `trade_updates`) is read as an update: the handler
   * throws on `trade_updates.length` and the book stays empty.
   */
  lemma ReconnectSnapshotThrows(f: Feed, m: Message)
    requires WellFormed(f.book) && f.initial
    requires m.deleteUpdate.None? && m.createUpdate.None? && m.tradeUpdates.None?
    ensures Handle(Close(f), m) == (Feed(true, m.sequence, Reset(f.book)), Threw(MissingField))
    ensures View(Handle(Close(f), m).0.book, Ask) == [] && View(Handle(Close(f), m).0.book, Bid) == []
  {
  }

  /** With the intended close, the new connection's snapshot is installed again. */
  lemma ReconnectFixedInstalls(f: Feed, m: Message)
    requires WellFormed(f.book)
    requires m.asks.Some? && m.bids.Some? && DistinctIds(m.asks.value, m.bids.value)
    ensures var (g, reply) := Handle(CloseFixed(f), m);
            && reply == Handled && g.initial
            && View(g.book, Ask) == Typed(m.asks.value, Ask)
            && View(g.book, Bid) == Typed(m.bids.value, Bid)
  {
    FirstMessageInstalls(CloseFixed(f), m);
  }

  // ---------------------------------------------------------------- the ticker

  /** The ticker record the handlers close over; `candles` is not part of this model. */
  class Ticker {
    var initial: bool
    var lastSequence: int
    const book: LinkedBook.OrderBook

    ghost function State(): Feed
      reads this, book
      requires book.Valid()
    {
      Feed(initial, lastSequence, book.Model())
    }

    ghost predicate Valid()
      reads this, book
    {
      book.Valid()
    }

    constructor ()
      ensures Valid() && State() == Feed(false, 0, Empty()) && fresh(book)
    {
      initial := false;
      lastSequence := 0;
      book := new LinkedBook.OrderBook();
    }

    /** The message handler. */
    method OnMessage(m: Message) returns (reply: Reply)
      requires Valid()
      modifies this, book
      ensures Valid() && (State(), reply) == Handle(old(State()), m)
    {
      if lastSequence != 0 && lastSequence + 1 != m.sequence {
        return Terminated;
      }
      lastSequence := m.sequence;
      if !initial {
        initial := true;
        reply := Install(m);
        return;
      }
      reply := ApplyUpdate(m);
    }

    /** The snapshot branch of the handler. */
    method Install(m: Message) returns (reply: Reply)
      requires Valid()
      modifies book
      ensures Valid() && (book.Model(), reply) == Snapshot(old(book.Model()), m)
    {
      book.Reset();
      if m.asks.None? {
        return Threw(MissingField);
      }
      var asked := book.Enlist(Ask, m.asks.value);
      if asked.Fail? {
        return Threw(asked.error);
      }
      if m.bids.None? {
        return Threw(MissingField);
      }
      var bid := book.Enlist(Bid, m.bids.value);
      if bid.Fail? {
        return Threw(bid.error);
      }
      reply := Handled;
    }

    /** The update branch of the handler. */
    method ApplyUpdate(m: Message) returns (reply: Reply)
      requires Valid()
      modifies book
      ensures Valid() && (book.Model(), reply) == Update(old(book.Model()), m)
    {
      if m.deleteUpdate.Some? {
        book.Delete(m.deleteUpdate.value);
      }
      if m.createUpdate.Some? {
        var added := book.Add(Created(m.createUpdate.value));
        if added.Fail? {
          return Threw(added.error);
        }
      }
      if m.tradeUpdates.None? {
        return Threw(MissingField);
      }
      ApplyTrades(m.timestamp, m.tradeUpdates.value);
      reply := Handled;
    }

    /** The `trade_updates` loop of the update branch. */
    method ApplyTrades(ts: int, trades: seq<TradeUpdate>)
      requires Valid()
      modifies book
      ensures Valid() && book.Model() == ApplyFrom(old(book.Model()), ts, trades, 0)
    {
      ghost var start := book.Model();
      var i := 0;
      while i < |trades|
        invariant Valid() && i <= |trades|
        invariant ApplyFrom(book.Model(), ts, trades, i) == ApplyFrom(start, ts, trades, 0)
      {
        ApplyOne(ts, trades[i]);
        i := i + 1;
      }
    }

    /** One trade update: find the maker, record the trade, reduce the maker. */
    method ApplyOne(ts: int, t: TradeUpdate)
      requires Valid()
      modifies book
      ensures Valid() && book.Model() == ApplyTrade(old(book.Model()), ts, t)
    {
      var order := book.GetOrder(t.makerOrderId);
      if order.Some? {
        book.Trade(ts, order.value.price, t.base, t.counter, Some(TradeMeta(order.value.id, order.value.side)));
        var reduced := book.Reduce(order.value.id, t.base);
      }
    }

    /** The close handler. */
    method OnClose()
      requires Valid()
      modifies this, book
      ensures Valid() && State() == Close(old(State()))
    {
      lastSequence := 0;
      book.Reset();
    }
  }
}
