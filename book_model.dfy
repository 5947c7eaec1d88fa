/**
 * The order book of OrderBook.ts seen as a value: which order each allocated
 * node holds, the nodes reachable from each head in list order, the id index,
 * the per-second trade ledger with its watermark and the per-price summaries.
 *
 * The class in linked_book.dfy keeps this state as a linked arena; each of its
 * methods is proved to act on the state exactly as the function of the same
 * name here does, and the properties of the book are proved here.
 */
module BookModel {
  import opened Types

  /** `OrderSummary`: one price string with its volume and the ids seen at it. */
  datatype Summary = Summary(price: Price, volume: real, ids: seq<string>)

  datatype Book = Book(
    data: seq<Order>,             // the order held by every node ever allocated
    asks: seq<nat>,               // the nodes reachable from the ask head, in list order
    bids: seq<nat>,               // the nodes reachable from the bid head, in list order
    index: map<string, nat>,      // `_indexes`: order id to node
    trades: map<int, seq<Trade>>, // `_trades`: second to the trades recorded in it
    last: int,                    // `_last_timmestamp`
    askSummary: seq<Summary>,     // `_summarized_asks`, in insertion order
    bidSummary: seq<Summary>)     // `_summarized_bids`, in insertion order

  function Empty(): (b: Book)
    ensures WellFormed(b) && b.asks == [] && b.bids == [] && b.index == map[]
  {
    Book([], [], [], map[], map[], 0, [], [])
  }

  function Other(side: Side): Side { if side == Ask then Bid else Ask }

  function ListOf(b: Book, side: Side): seq<nat> { if side == Ask then b.asks else b.bids }

  function WithList(b: Book, side: Side, l: seq<nat>): Book
  {
    if side == Ask then b.(asks := l) else b.(bids := l)
  }

  function SummaryOf(b: Book, side: Side): seq<Summary> { if side == Ask then b.askSummary else b.bidSummary }

  function WithSummary(b: Book, side: Side, s: seq<Summary>): Book
  {
    if side == Ask then b.(askSummary := s) else b.(bidSummary := s)
  }

  ghost predicate InRange(data: seq<Order>, l: seq<nat>)
  {
    forall x | x in l :: x < |data|
  }

  /** Both lists point into the arena, neither holds a node twice, and no node is on both. */
  ghost predicate ListsOk(b: Book)
  {
    && InRange(b.data, b.asks) && InRange(b.data, b.bids)
    && Distinct(b.asks) && Distinct(b.bids)
    && (forall x | x in b.asks :: x !in b.bids)
  }

  /** Every indexed id points at a node holding an order with that id. */
  ghost predicate IndexOk(data: seq<Order>, index: map<string, nat>)
  {
    forall id | id in index :: index[id] < |data| && data[index[id]].id == id
  }

  /** The ledger holds no empty bucket. */
  ghost predicate LedgerOk(trades: map<int, seq<Trade>>)
  {
    forall k | k in trades :: |trades[k]| > 0
  }

  /** The shape every reachable book has. */
  ghost predicate WellFormed(b: Book)
  {
    ListsOk(b) && IndexOk(b.data, b.index) && LedgerOk(b.trades)
  }

  function Deref(data: seq<Order>, l: seq<nat>): seq<Order>
    requires InRange(data, l)
  {
    seq(|l|, i requires 0 <= i < |l| => assert l[i] in l; data[l[i]])
  }

  /** The orders of one side in list order: what `top` walks and `count` counts. */
  function View(b: Book, side: Side): seq<Order>
    requires WellFormed(b)
  {
    Deref(b.data, ListOf(b, side))
  }

  /** `getOrder`: the order the index points at. */
  function GetOrder(b: Book, id: string): Option<Order>
    requires WellFormed(b)
  {
    if id in b.index then Some(b.data[b.index[id]]) else None
  }

  /** Price `p` ranks strictly before price `q` on `side`: lower for asks, higher for bids. */
  predicate Better(side: Side, p: Price, q: Price)
  {
    match side
    case Ask => p.value < q.value
    case Bid => p.value > q.value
  }

  /** Price priority: no order ranks strictly before an order ahead of it. */
  ghost predicate Sorted(side: Side, s: seq<Order>)
  {
    forall i, j | 0 <= i < j < |s| :: !Better(side, s[j].price, s[i].price)
  }

  /** Where `add` puts `o`: before the first order it ranks strictly before, else at the tail. */
  function InsertPos(side: Side, s: seq<Order>, o: Order): (k: nat)
    ensures k <= |s|
    ensures forall j | 0 <= j < k :: !Better(side, o.price, s[j].price)
    ensures k < |s| ==> Better(side, o.price, s[k].price)
  {
    if s == [] then 0
    else if Better(side, o.price, s[0].price) then 0
    else 1 + InsertPos(side, s[1..], o)
  }

  /** `InsertPos` is the one position with no strictly worse order ahead of `o` and a strictly worse one at it. */
  lemma InsertPosUnique(side: Side, s: seq<Order>, o: Order, k: nat)
    requires k <= |s| && forall j | 0 <= j < k :: !Better(side, o.price, s[j].price)
    requires k < |s| ==> Better(side, o.price, s[k].price)
    ensures InsertPos(side, s, o) == k
  {
  }

  // ---------------------------------------------------------------- add

  /**
   * The book `add` builds before it checks the id: a node for a copy of `o`
   * is allocated and, on a non-empty side, spliced in at `InsertPos`; on an
   * empty side it is left unlinked.
   */
  function Placed(b: Book, o: Order): Book
    requires WellFormed(b)
  {
    var n := |b.data|;
    var l := ListOf(b, o.side);
    var grown := b.(data := b.data + [o]);
    if l == [] then grown
    else
      var k := InsertPos(o.side, View(b, o.side), o);
      WithList(grown, o.side, l[..k] + [n] + l[k..])
  }

  /** `add`: place the node, then index it if the id was new, or throw. */
  function Add(b: Book, o: Order): (Book, Outcome)
    requires WellFormed(b)
  {
    var p := Placed(b, o);
    if o.id in b.index then (p, Fail(DuplicateOrderId))
    else (p.(index := p.index[o.id := |b.data|]), Pass)
  }

  /** `add` keeps a book well formed, whether or not the id is a duplicate. */
  lemma AddKeepsShape(b: Book, o: Order)
    requires WellFormed(b)
    ensures WellFormed(Placed(b, o)) && WellFormed(Add(b, o).0)
  {
    var n := |b.data|;
    var l := ListOf(b, o.side);
    var grown := b.(data := b.data + [o]);
    GrowKeepsShape(b, o);
    if l != [] {
      var k := InsertPos(o.side, View(b, o.side), o);
      SpliceDistinct(l, k, n);
      SetListKeepsShape(grown, o.side, l[..k] + [n] + l[k..]);
    }
  }

  /** Allocating a node keeps the shape. */
  lemma GrowKeepsShape(b: Book, o: Order)
    requires WellFormed(b)
    ensures WellFormed(b.(data := b.data + [o]))
  {
    var d := b.data + [o];
    assert forall i | 0 <= i < |b.data| :: d[i] == b.data[i];
  }

  /** Replacing one list by a list of distinct nodes, none on the other list, keeps the shape. */
  lemma SetListKeepsShape(b: Book, side: Side, l: seq<nat>)
    requires WellFormed(b) && InRange(b.data, l) && Distinct(l)
    requires forall x | x in l :: x !in ListOf(b, Other(side))
    ensures WellFormed(WithList(b, side, l))
  {
  }

  lemma SpliceDistinct(l: seq<nat>, k: nat, n: nat)
    requires Distinct(l) && k <= |l| && n !in l
    ensures Distinct(l[..k] + [n] + l[k..])
    ensures forall x :: x in l[..k] + [n] + l[k..] <==> x in l || x == n
  {
    var l' := l[..k] + [n] + l[k..];
    assert l == l[..k] + l[k..];
    forall i, j | 0 <= i < j < |l'| ensures l'[i] != l'[j] {
      if i < k && j < k { assert l'[i] == l[i] && l'[j] == l[j]; }
      else if i < k && j == k { assert l'[i] == l[i]; }
      else if i < k { assert l'[i] == l[i] && l'[j] == l[j - 1]; }
      else if i == k { assert l'[j] == l[j - 1]; }
      else { assert l'[i] == l[i - 1] && l'[j] == l[j - 1]; }
    }
  }

  /** Dereferencing a spliced list is splicing the dereferenced list. */
  lemma DerefSplice(data: seq<Order>, l: seq<nat>, k: nat, o: Order)
    requires InRange(data, l) && k <= |l|
    ensures InRange(data + [o], l[..k] + [|data|] + l[k..])
    ensures Deref(data + [o], l[..k] + [|data|] + l[k..]) == Deref(data, l)[..k] + [o] + Deref(data, l)[k..]
  {
    var n := |data|;
    var l' := l[..k] + [n] + l[k..];
    assert forall i | 0 <= i < |l'| :: l'[i] == if i < k then l[i] else if i == k then n else l[i - 1];
    forall i | 0 <= i < |l| ensures l[i] < n { assert l[i] in l; }
    var d := Deref(data, l);
    var lhs := Deref(data + [o], l');
    var rhs := d[..k] + [o] + d[k..];
    forall i | 0 <= i < |lhs| ensures lhs[i] == rhs[i] {
      if i < k { assert l'[i] == l[i] && rhs[i] == d[i]; }
      else if i > k { assert l'[i] == l[i - 1] && rhs[i] == d[i - 1]; }
    }
  }

  /** Allocating a node leaves every dereferenced list as it was. */
  lemma DerefGrow(data: seq<Order>, l: seq<nat>, o: Order)
    requires InRange(data, l)
    ensures InRange(data + [o], l) && Deref(data + [o], l) == Deref(data, l)
  {
    forall i | 0 <= i < |l| ensures Deref(data + [o], l)[i] == Deref(data, l)[i] {
      assert l[i] in l;
    }
  }

  /**
   * On a non-empty side, `add` puts `o` right before the first order it ranks
   * strictly before (or at the tail), and the other side does not change,
   * whether or not the id turns out to be a duplicate.
   */
  lemma AddSplicesAtInsertPos(b: Book, o: Order)
    requires WellFormed(b) && ListOf(b, o.side) != []
    ensures WellFormed(Add(b, o).0)
    ensures var s := View(b, o.side);
            var k := InsertPos(o.side, s, o);
            && View(Add(b, o).0, o.side) == s[..k] + [o] + s[k..]
            && View(Add(b, o).0, Other(o.side)) == View(b, Other(o.side))
  {
    AddKeepsShape(b, o);
    var s := View(b, o.side);
    var k := InsertPos(o.side, s, o);
    DerefSplice(b.data, ListOf(b, o.side), k, o);
    DerefGrow(b.data, ListOf(b, Other(o.side)), o);
  }

  /** Inserting at `InsertPos` into a sorted sequence keeps it sorted; everything behind ranks worse. */
  lemma InsertKeepsSorted(side: Side, s: seq<Order>, o: Order)
    requires Sorted(side, s)
    ensures var k := InsertPos(side, s, o);
            && Sorted(side, s[..k] + [o] + s[k..])
            && (forall j | k <= j < |s| :: Better(side, o.price, s[j].price))
  {
    var k := InsertPos(side, s, o);
    var s' := s[..k] + [o] + s[k..];
    forall j | k <= j < |s| ensures Better(side, o.price, s[j].price) {
      assert !Better(side, s[j].price, s[k].price);
    }
    forall i, j | 0 <= i < j < |s'| ensures !Better(side, s'[j].price, s'[i].price) {
      if j < k { assert s'[i] == s[i] && s'[j] == s[j]; }
      else if j == k { assert s'[j] == o && s'[i] == s[i]; }
      else if i < k { assert s'[i] == s[i] && s'[j] == s[j - 1]; }
      else if i == k { assert s'[i] == o && s'[j] == s[j - 1]; }
      else { assert s'[i] == s[i - 1] && s'[j] == s[j - 1]; }
    }
  }

  /**
   * Price-time priority: on a side sorted by price, `add` keeps the side
   * sorted, every order ahead of `o` ranks at least as well as `o` (so orders
   * at the same price stay ahead of it), and every order behind ranks worse.
   */
  lemma AddKeepsPriceTimeOrder(b: Book, o: Order)
    requires WellFormed(b) && Sorted(o.side, View(b, o.side))
    ensures WellFormed(Add(b, o).0)
    ensures Sorted(o.side, View(Add(b, o).0, o.side))
    ensures ListOf(b, o.side) != [] ==>
              var s := View(b, o.side);
              var k := InsertPos(o.side, s, o);
              && (forall j | 0 <= j < k :: !Better(o.side, o.price, s[j].price))
              && (forall j | k <= j < |s| :: Better(o.side, o.price, s[j].price))
              && (forall j | 0 <= j < |s| && s[j].price.value == o.price.value :: j < k)
  {
    AddKeepsShape(b, o);
    if ListOf(b, o.side) == [] {
      assert View(Add(b, o).0, o.side) == [];
    } else {
      AddSplicesAtInsertPos(b, o);
      InsertKeepsSorted(o.side, View(b, o.side), o);
    }
  }

  /**
   * `add` on an empty side only rebinds a local: the order can be found by id
   * but the side stays empty, so `top` and `count` do not see it.
   */
  lemma AddToEmptySideIsUnlinked(b: Book, o: Order)
    requires WellFormed(b) && ListOf(b, o.side) == [] && o.id !in b.index
    ensures Add(b, o).1 == Pass && WellFormed(Add(b, o).0)
    ensures View(Add(b, o).0, o.side) == []
    ensures View(Add(b, o).0, Other(o.side)) == View(b, Other(o.side))
    ensures GetOrder(Add(b, o).0, o.id) == Some(o)
  {
    AddKeepsShape(b, o);
    DerefGrow(b.data, ListOf(b, Other(o.side)), o);
  }

  /**
   * `add` with an indexed id throws only after splicing the new node in: the
   * side grows by one (holding the id twice) while the index still points at
   * the old node.
   */
  lemma AddDuplicateStillSplices(b: Book, o: Order)
    requires WellFormed(b) && o.id in b.index && ListOf(b, o.side) != []
    ensures Add(b, o).1 == Fail(DuplicateOrderId) && WellFormed(Add(b, o).0)
    ensures Add(b, o).0.index == b.index
    ensures GetOrder(Add(b, o).0, o.id) == GetOrder(b, o.id)
    ensures |View(Add(b, o).0, o.side)| == |View(b, o.side)| + 1
    ensures o in View(Add(b, o).0, o.side)
  {
    AddSplicesAtInsertPos(b, o);
    var s := View(b, o.side);
    var k := InsertPos(o.side, s, o);
    assert (s[..k] + [o] + s[k..])[k] == o;
  }

  /**
   * `add` as evidently intended: a duplicate id throws before anything
   * changes, and an order on an empty side becomes that side's head.
   */
  function AddFixed(b: Book, o: Order): (Book, Outcome)
    requires WellFormed(b)
  {
    if o.id in b.index then (b, Fail(DuplicateOrderId))
    else
      var n := |b.data|;
      var l := ListOf(b, o.side);
      var k := InsertPos(o.side, View(b, o.side), o);
      var r := WithList(b.(data := b.data + [o]), o.side, l[..k] + [n] + l[k..]);
      (r.(index := r.index[o.id := n]), Pass)
  }

  /** On a non-empty side and with a new id, the intended `add` is the one written. */
  lemma AddFixedAgrees(b: Book, o: Order)
    requires WellFormed(b) && ListOf(b, o.side) != [] && o.id !in b.index
    ensures AddFixed(b, o) == Add(b, o)
  {
  }

  /**
   * The intended `add` leaves the book unchanged on a duplicate id; a new
   * order goes in at `InsertPos` on its side, empty or not, keeping the side
   * sorted, findable by its id, and the other side unchanged.
   */
  lemma AddFixedInstalls(b: Book, o: Order)
    requires WellFormed(b) && Sorted(o.side, View(b, o.side))
    ensures o.id in b.index ==> AddFixed(b, o) == (b, Fail(DuplicateOrderId))
    ensures o.id !in b.index ==>
              var r := AddFixed(b, o).0;
              var s := View(b, o.side);
              var k := InsertPos(o.side, s, o);
              && AddFixed(b, o).1 == Pass && WellFormed(r)
              && View(r, o.side) == s[..k] + [o] + s[k..]
              && Sorted(o.side, View(r, o.side))
              && View(r, Other(o.side)) == View(b, Other(o.side))
              && GetOrder(r, o.id) == Some(o)
  {
    if o.id !in b.index {
      var n := |b.data|;
      var l := ListOf(b, o.side);
      var s := View(b, o.side);
      var k := InsertPos(o.side, s, o);
      var l' := l[..k] + [n] + l[k..];
      var grown := b.(data := b.data + [o]);
      forall x | x in l ensures x < n { }
      forall x | x in ListOf(b, Other(o.side)) ensures x < n { }
      SpliceDistinct(l, k, n);
      DerefSplice(b.data, l, k, o);
      DerefGrow(b.data, ListOf(b, Other(o.side)), o);
      GrowKeepsShape(b, o);
      SetListKeepsShape(grown, o.side, l');
      InsertKeepsSorted(o.side, s, o);
      var r := WithList(grown, o.side, l');
      assert r.data == b.data + [o] && r.data[n] == o;
      assert AddFixed(b, o).0 == r.(index := r.index[o.id := n]);
    }
  }

  // ---------------------------------------------------------------- delete

  function Without(l: seq<nat>, t: nat): (r: seq<nat>)
    ensures forall x :: x in r <==> x in l && x != t
  {
    if l == [] then []
    else if l[0] == t then Without(l[1..], t)
    else [l[0]] + Without(l[1..], t)
  }

  lemma {:induction false} WithoutAt(l: seq<nat>, k: nat)
    requires Distinct(l) && k < |l|
    ensures Without(l, l[k]) == l[..k] + l[k + 1..]
  {
    if k == 0 {
      WithoutAbsent(l[1..], l[0]);
    } else {
      assert l[1..][k - 1] == l[k];
      WithoutAt(l[1..], k - 1);
      assert l[1..][..k - 1] == l[1..k];
      assert l[1..][k..] == l[k + 1..];
      assert l[..k] == [l[0]] + l[1..k];
    }
  }

  lemma {:induction false} WithoutAbsent(l: seq<nat>, t: nat)
    requires t !in l
    ensures Without(l, t) == l
  {
    if l != [] {
      WithoutAbsent(l[1..], t);
    }
  }

  /** `delete`: unlink the indexed node from whichever list holds it and drop the id. */
  function Delete(b: Book, id: string): (r: Book)
    requires WellFormed(b)
    ensures WellFormed(r)
  {
    if id !in b.index then b
    else
      var t := b.index[id];
      var r := b.(asks := Without(b.asks, t), bids := Without(b.bids, t), index := b.index - {id});
      assert WellFormed(r) by { WithoutKeepsShape(b.asks, t); WithoutKeepsShape(b.bids, t); }
      r
  }

  lemma {:induction false} WithoutKeepsShape(l: seq<nat>, t: nat)
    requires Distinct(l)
    ensures Distinct(Without(l, t))
  {
    if l != [] {
      WithoutKeepsShape(l[1..], t);
      var r := Without(l[1..], t);
      if l[0] != t {
        assert l[0] !in l[1..];
        assert l[0] !in r;
        var r' := [l[0]] + r;
        forall i, j | 0 <= i < j < |r'| ensures r'[i] != r'[j] {
          if i == 0 { assert r'[j] == r[j - 1] && r[j - 1] in r; }
          else { assert r'[i] == r[i - 1] && r'[j] == r[j - 1]; }
        }
      }
    }
  }

  /** `delete` of an id the index does not hold changes nothing. */
  lemma DeleteUnknown(b: Book, id: string)
    requires WellFormed(b) && id !in b.index
    ensures Delete(b, id) == b
  {
  }

  /**
   * `delete` of a known id removes exactly that order from its side (the rest
   * keep their order), leaves the other side alone and forgets the id.
   */
  lemma DeleteRemovesOne(b: Book, id: string, side: Side, k: nat)
    requires WellFormed(b) && id in b.index && k < |ListOf(b, side)| && ListOf(b, side)[k] == b.index[id]
    ensures View(Delete(b, id), side) == View(b, side)[..k] + View(b, side)[k + 1..]
    ensures View(Delete(b, id), Other(side)) == View(b, Other(side))
    ensures GetOrder(Delete(b, id), id) == None
    ensures Delete(b, id).trades == b.trades && Delete(b, id).last == b.last
  {
    var t := b.index[id];
    var l := ListOf(b, side);
    WithoutAt(l, k);
    var o := ListOf(b, Other(side));
    assert t !in o by { assert t in l; }
    WithoutAbsent(o, t);
    var d := View(b, side);
    var d' := View(Delete(b, id), side);
    assert |d'| == |d| - 1;
    forall i | 0 <= i < |d'| ensures d'[i] == (d[..k] + d[k + 1..])[i] {
      if i < k { assert (d[..k] + d[k + 1..])[i] == d[i]; }
      else { assert (d[..k] + d[k + 1..])[i] == d[i + 1]; }
    }
  }

  /** An order the index points at but no list holds is deleted without touching either side. */
  lemma DeleteUnlinked(b: Book, id: string)
    requires WellFormed(b) && id in b.index && b.index[id] !in b.asks && b.index[id] !in b.bids
    ensures View(Delete(b, id), Ask) == View(b, Ask) && View(Delete(b, id), Bid) == View(b, Bid)
    ensures GetOrder(Delete(b, id), id) == None
  {
    WithoutAbsent(b.asks, b.index[id]);
    WithoutAbsent(b.bids, b.index[id]);
  }

  // ---------------------------------------------------------------- reduce

  /**
   * `reduce`: throw on an unknown id; delete the order when nothing is left of
   * it, otherwise write the remaining volume into the node in place.
   */
  function Reduce(b: Book, id: string, amount: real): (r: (Book, Outcome))
    requires WellFormed(b)
    ensures WellFormed(r.0)
  {
    if id !in b.index then (b, Fail(OrderNotFound))
    else
      var t := b.index[id];
      var remaining := b.data[t].volume - amount;
      if remaining <= 0.0 then (Delete(b, id), Pass)
      else (b.(data := b.data[t := b.data[t].(volume := remaining)]), Pass)
  }

  /**
   * A reduce that leaves a positive volume keeps every order where it was and
   * changes only the volume of the reduced order, by exactly `amount`.
   */
  lemma ReduceInPlace(b: Book, id: string, amount: real, side: Side)
    requires WellFormed(b) && id in b.index && b.data[b.index[id]].volume - amount > 0.0
    ensures var r := Reduce(b, id, amount).0;
            && Reduce(b, id, amount).1 == Pass
            && |View(r, side)| == |View(b, side)|
            && (forall i | 0 <= i < |View(b, side)| ::
                  View(r, side)[i] == if ListOf(b, side)[i] == b.index[id]
                                      then View(b, side)[i].(volume := View(b, side)[i].volume - amount)
                                      else View(b, side)[i])
            && GetOrder(r, id) == Some(b.data[b.index[id]].(volume := b.data[b.index[id]].volume - amount))
  {
    var l := ListOf(b, side);
    forall i | 0 <= i < |l| ensures l[i] < |b.data| { assert l[i] in l; }
  }

  /** A reduce that uses up the order is a delete; a reduce of an unknown id throws and changes nothing. */
  lemma ReduceToNothingDeletes(b: Book, id: string, amount: real)
    requires WellFormed(b)
    ensures id !in b.index ==> Reduce(b, id, amount) == (b, Fail(OrderNotFound))
    ensures id in b.index && b.data[b.index[id]].volume <= amount ==>
              Reduce(b, id, amount) == (Delete(b, id), Pass) && GetOrder(Reduce(b, id, amount).0, id) == None
  {
  }

  // ---------------------------------------------------------------- trades

  /** `Math.floor(ts / 1000) * 1000`: the start of the second holding `ts`. */
  function Bucket(ts: int): (k: int)
    ensures k % 1000 == 0 && k <= ts < k + 1000
  {
    (ts / 1000) * 1000
  }

  /** The counter amount recorded: the given one, or price times volume when it is absent. */
  function Counter(price: Price, volume: real, counter: Option<real>): real
  {
    if counter.Some? then counter.value else price.value * volume
  }

  /** `trade`: append to the trades of the second of `ts` and move the watermark there. */
  function RecordTrade(b: Book, ts: int, price: Price, volume: real, counter: Option<real>, meta: Option<TradeMeta>): (r: Book)
    requires WellFormed(b)
    ensures WellFormed(r)
  {
    var t := Trade(price, volume, ts, Counter(price, volume, counter), meta);
    var k := Bucket(ts);
    b.(last := k, trades := b.trades[k := (if k in b.trades then b.trades[k] else []) + [t]])
  }

  /**
   * A recorded trade goes last into the bucket of its second, in call order;
   * the watermark becomes that bucket, no other bucket and nothing in the
   * order lists changes, and a missing counter becomes price times volume.
   */
  lemma RecordTradeAppends(b: Book, ts: int, price: Price, volume: real, counter: Option<real>, meta: Option<TradeMeta>)
    requires WellFormed(b)
    ensures var r := RecordTrade(b, ts, price, volume, counter, meta);
            && r.last == Bucket(ts) && r.last <= ts < r.last + 1000
            && r.trades.Keys == b.trades.Keys + {Bucket(ts)}
            && (forall k | k in b.trades && k != Bucket(ts) :: r.trades[k] == b.trades[k])
            && |r.trades[r.last]| >= 1
            && r.trades[r.last][..|r.trades[r.last]| - 1] == (if Bucket(ts) in b.trades then b.trades[Bucket(ts)] else [])
            && r.trades[r.last][|r.trades[r.last]| - 1] == Trade(price, volume, ts, Counter(price, volume, counter), meta)
            && (counter.None? ==> r.trades[r.last][|r.trades[r.last]| - 1].counter == price.value * volume)
            && View(r, Ask) == View(b, Ask) && View(r, Bid) == View(b, Bid) && r.index == b.index
  {
  }

  /** The buckets `getTrades` visits: `t`, `t + 1000`, ... up to the watermark. */
  function TradesFrom(trades: map<int, seq<Trade>>, t: int, last: int): seq<Trade>
    decreases last - t
  {
    if t > last then []
    else (if t in trades then trades[t] else []) + TradesFrom(trades, t + 1000, last)
  }

  /** `getTrades(since)`. */
  function GetTrades(b: Book, since: int): seq<Trade>
  {
    TradesFrom(b.trades, since + 1000, b.last)
  }

  /**
   * A trade is returned by `getTrades(since)` exactly when it sits in a bucket
   * that is a whole number of seconds after `since`, later than `since`, and
   * not after the watermark.
   */
  lemma {:induction false} GetTradesMembers(b: Book, since: int, x: Trade)
    ensures x in GetTrades(b, since) <==>
              exists k :: k in b.trades && since < k <= b.last && (k - since) % 1000 == 0 && x in b.trades[k]
  {
    TradesFromMembers(b.trades, since + 1000, b.last, x);
    if x in GetTrades(b, since) {
      var k :| k in b.trades && since + 1000 <= k <= b.last && (k - (since + 1000)) % 1000 == 0 && x in b.trades[k];
      assert (k - since) % 1000 == 0;
    }
    if exists k :: k in b.trades && since < k <= b.last && (k - since) % 1000 == 0 && x in b.trades[k] {
      var k :| k in b.trades && since < k <= b.last && (k - since) % 1000 == 0 && x in b.trades[k];
      assert k >= since + 1000;
      assert (k - (since + 1000)) % 1000 == 0;
    }
  }

  lemma {:induction false} TradesFromMembers(trades: map<int, seq<Trade>>, t: int, last: int, x: Trade)
    ensures x in TradesFrom(trades, t, last) <==>
              exists k :: k in trades && t <= k <= last && (k - t) % 1000 == 0 && x in trades[k]
    decreases last - t
  {
    if t <= last {
      TradesFromMembers(trades, t + 1000, last, x);
      var here := if t in trades then trades[t] else [];
      assert TradesFrom(trades, t, last) == here + TradesFrom(trades, t + 1000, last);
      if exists k :: k in trades && t + 1000 <= k <= last && (k - (t + 1000)) % 1000 == 0 && x in trades[k] {
        var k :| k in trades && t + 1000 <= k <= last && (k - (t + 1000)) % 1000 == 0 && x in trades[k];
        assert (k - t) % 1000 == 0;
      }
      if exists k :: k in trades && t <= k <= last && (k - t) % 1000 == 0 && x in trades[k] {
        var k :| k in trades && t <= k <= last && (k - t) % 1000 == 0 && x in trades[k];
        if k != t {
          assert k >= t + 1000;
          assert (k - (t + 1000)) % 1000 == 0;
        }
      }
    }
  }

  // ---------------------------------------------------------------- reset

  /** `reset`: both heads, the index and the watermark go; trades and summaries stay. */
  function Reset(b: Book): (r: Book)
    ensures WellFormed(b) ==> WellFormed(r)
  {
    b.(asks := [], bids := [], index := map[], last := 0)
  }

  // ---------------------------------------------------------------- summaries

  /** The position of the summary keyed by `text`, or `|s|` when there is none. */
  function SlotOf(s: seq<Summary>, text: string): (k: nat)
    ensures k <= |s|
  {
    if s == [] then 0
    else if s[0].price.text == text then 0
    else 1 + SlotOf(s[1..], text)
  }

  /** The slot `SlotOf` picks holds `text`, and no earlier one does: it is the first, or `|s|` when there is none. */
  lemma {:induction false} SlotOfFirst(s: seq<Summary>, text: string)
    ensures var k := SlotOf(s, text);
            && (k < |s| ==> s[k].price.text == text)
            && forall j | 0 <= j < k :: s[j].price.text != text
  {
    if s != [] && s[0].price.text != text {
      SlotOfFirst(s[1..], text);
    }
  }

  /** `_summarizeOrder`: add the order's volume to its price's summary unless its id is already there. */
  function Summarize(s: seq<Summary>, o: Order): seq<Summary>
  {
    var k := SlotOf(s, o.price.text);
    if k == |s| then s + [Summary(o.price, o.volume, [o.id])]
    else if o.id in s[k].ids then s
    else s[k := Summary(s[k].price, s[k].volume + o.volume, s[k].ids + [o.id])]
  }

  ghost predicate DistinctPrices(s: seq<Summary>)
  {
    forall i, j | 0 <= i < j < |s| :: s[i].price.text != s[j].price.text
  }

  /**
   * Summarizing keeps one summary per price string, and summarizing the same
   * order twice is the same as once: an id is counted into its price's
   * volume at most one time. A new price string gets a summary of its own at
   * the end; an id already listed under its price leaves every summary as it
   * was, whatever its volume; a new id adds exactly its volume and its id to
   * its price's summary and to no other.
   */
  lemma SummarizeIdempotent(s: seq<Summary>, o: Order)
    requires DistinctPrices(s)
    ensures DistinctPrices(Summarize(s, o))
    ensures Summarize(Summarize(s, o), o) == Summarize(s, o)
    ensures |Summarize(s, o)| == |s| || |Summarize(s, o)| == |s| + 1
    ensures forall j | 0 <= j < |s| :: s[j].price.text != o.price.text ==>
              Summarize(s, o)[j] == s[j]
    ensures (forall j | 0 <= j < |s| :: s[j].price.text != o.price.text) ==>
              Summarize(s, o) == s + [Summary(o.price, o.volume, [o.id])]
    ensures forall j | 0 <= j < |s| && s[j].price.text == o.price.text ::
              && |Summarize(s, o)| == |s|
              && (o.id in s[j].ids ==> Summarize(s, o) == s)
              && (o.id !in s[j].ids ==>
                    Summarize(s, o)[j] == Summary(s[j].price, s[j].volume + o.volume, s[j].ids + [o.id]))
  {
    var k := SlotOf(s, o.price.text);
    SlotOfFirst(s, o.price.text);
    var s' := Summarize(s, o);
    if k == |s| {
      assert s'[|s|].ids == [o.id];
      assert SlotOf(s', o.price.text) == |s| by { SlotUnique(s', |s|); }
    } else {
      assert SlotOf(s', o.price.text) == k by { SlotUnique(s', k); }
    }
  }

  lemma {:induction false} SlotUnique(s: seq<Summary>, k: nat)
    requires k < |s| && forall j | 0 <= j < k :: s[j].price.text != s[k].price.text
    ensures SlotOf(s, s[k].price.text) == k
  {
    if k > 0 {
      SlotUnique(s[1..], k - 1);
    }
  }

  // ---------------------------------------------------------------- enlisting

  /**
   * The node and index part of one step of `_enlistOrders`: index a fresh
   * node for a copy of `o` typed `side`, and make it the head of a new list
   * when it is the first, otherwise link it after the previous one.
   */
  function Attached(b: Book, side: Side, o: Order, first: bool): Book
  {
    var n := |b.data|;
    WithList(b.(data := b.data + [o.(side := side)], index := b.index[o.id := n]), side, if first then [n] else ListOf(b, side) + [n])
  }

  /** One step of `_enlistOrders`: attach the node, then summarize the order. */
  function Link(b: Book, side: Side, o: Order, first: bool): Book
  {
    WithSummary(Attached(b, side, o, first), side, Summarize(SummaryOf(b, side), o))
  }

  /** What one `Link` does to each part of the book. */
  lemma LinkFields(b: Book, side: Side, o: Order, first: bool)
    ensures var r := Link(b, side, o, first);
            && r.data == b.data + [o.(side := side)]
            && r.asks == (if side == Ask then (if first then [|b.data|] else b.asks + [|b.data|]) else b.asks)
            && r.bids == (if side == Bid then (if first then [|b.data|] else b.bids + [|b.data|]) else b.bids)
            && r.index == b.index[o.id := |b.data|]
            && r.trades == b.trades && r.last == b.last
            && r.askSummary == (if side == Ask then Summarize(b.askSummary, o) else b.askSummary)
            && r.bidSummary == (if side == Bid then Summarize(b.bidSummary, o) else b.bidSummary)
  {
  }

  /** Attaching a node, and then summarizing its order, keeps a book well formed. */
  lemma LinkKeepsShape(b: Book, side: Side, o: Order, first: bool)
    requires WellFormed(b)
    ensures WellFormed(Attached(b, side, o, first)) && WellFormed(Link(b, side, o, first))
  {
    var n := |b.data|;
    var l := if first then [n] else ListOf(b, side) + [n];
    var grown := b.(data := b.data + [o.(side := side)]);
    GrowKeepsShape(b, o.(side := side));
    if !first { AppendDistinct(ListOf(b, side), n); }
    SetListKeepsShape(grown, side, l);
    assert Attached(b, side, o, first) == WithList(grown, side, l).(index := b.index[o.id := n]);
  }

  lemma AppendDistinct(l: seq<nat>, n: nat)
    requires Distinct(l) && n !in l
    ensures Distinct(l + [n])
  {
  }

  /** What one `Link` does to the two sides, the index and the ledger. */
  lemma LinkView(b: Book, side: Side, o: Order, first: bool)
    requires WellFormed(b)
    ensures WellFormed(Link(b, side, o, first))
    ensures var r := Link(b, side, o, first);
            && View(r, side) == (if first then [] else View(b, side)) + [o.(side := side)]
            && View(r, Other(side)) == View(b, Other(side))
            && r.data == b.data + [o.(side := side)] && r.index == b.index[o.id := |b.data|]
            && r.trades == b.trades && r.last == b.last
  {
    LinkKeepsShape(b, side, o, first);
    DerefGrow(b.data, ListOf(b, side), o.(side := side));
    DerefGrow(b.data, ListOf(b, Other(side)), o.(side := side));
  }

  function EnlistFrom(b: Book, side: Side, orders: seq<Order>, i: nat): (Book, Outcome)
    requires i <= |orders|
    decreases |orders| - i
  {
    if i == |orders| then (b, Pass)
    else if orders[i].id in b.index then (b, Fail(DuplicateOrderId))
    else EnlistFrom(Link(b, side, orders[i], i == 0), side, orders, i + 1)
  }

  /** One turn of `_enlistOrders`' loop: throw at an indexed id, or link the order and go on. */
  lemma EnlistFromStep(b: Book, side: Side, orders: seq<Order>, i: nat)
    requires i < |orders|
    ensures orders[i].id in b.index ==> EnlistFrom(b, side, orders, i) == (b, Fail(DuplicateOrderId))
    ensures orders[i].id !in b.index ==>
              EnlistFrom(b, side, orders, i) == EnlistFrom(Link(b, side, orders[i], i == 0), side, orders, i + 1)
  {
  }

  /** The `asks`/`bids` setters: link the orders in the given order, throwing at the first indexed id. */
  function Enlist(b: Book, side: Side, orders: seq<Order>): (Book, Outcome)
  {
    EnlistFrom(b, side, orders, 0)
  }

  function Typed(orders: seq<Order>, side: Side): seq<Order>
  {
    seq(|orders|, i requires 0 <= i < |orders| => orders[i].(side := side))
  }

  /** The ids of `orders`. */
  function Ids(orders: seq<Order>): set<string>
  {
    set i | 0 <= i < |orders| :: orders[i].id
  }

  ghost predicate FreshIds(b: Book, orders: seq<Order>)
  {
    && (forall i | 0 <= i < |orders| :: orders[i].id !in b.index)
    && (forall i, j | 0 <= i < j < |orders| :: orders[i].id != orders[j].id)
  }

  /**
   * The setters do not sort: given ids that are new and distinct, the side
   * becomes exactly the given orders in the given order, each findable by its
   * id, and the other side does not change.
   */
  lemma EnlistInstalls(b: Book, side: Side, orders: seq<Order>)
    requires WellFormed(b) && |orders| > 0 && FreshIds(b, orders)
    ensures Enlist(b, side, orders).1 == Pass && WellFormed(Enlist(b, side, orders).0)
    ensures View(Enlist(b, side, orders).0, side) == Typed(orders, side)
    ensures View(Enlist(b, side, orders).0, Other(side)) == View(b, Other(side))
    ensures forall i | 0 <= i < |orders| :: GetOrder(Enlist(b, side, orders).0, orders[i].id) == Some(orders[i].(side := side))
    ensures Enlist(b, side, orders).0.trades == b.trades && Enlist(b, side, orders).0.last == b.last
    ensures Enlist(b, side, orders).0.index.Keys <= b.index.Keys + Ids(orders)
  {
    FirstLinkInstalls(b, side, orders);
    var b1 := Link(b, side, orders[0], true);
    EnlistSteps(b, b1, side, orders, 1);
    InstalledAll(b, EnlistFrom(b1, side, orders, 1).0, side, orders);
  }

  /**
   * After the first `i` steps of a successful `_enlistOrders` from `b0`: the
   * side holds those orders in the given order, the other side and the
   * ledger are untouched, and exactly the first `i` ids are findable.
   */
  ghost predicate Installed(b0: Book, b: Book, side: Side, orders: seq<Order>, i: nat)
  {
    && WellFormed(b0) && WellFormed(b) && 0 < i <= |orders| && FreshIds(b0, orders)
    && View(b, side) == Typed(orders[..i], side)
    && View(b, Other(side)) == View(b0, Other(side))
    && (forall j | 0 <= j < |orders| :: orders[j].id in b.index <==> j < i)
    && (forall j | 0 <= j < i :: GetOrder(b, orders[j].id) == Some(orders[j].(side := side)))
    && b.trades == b0.trades && b.last == b0.last
    && b.index.Keys <= b0.index.Keys + Ids(orders)
  }

  lemma FirstLinkInstalls(b: Book, side: Side, orders: seq<Order>)
    requires WellFormed(b) && |orders| > 0 && FreshIds(b, orders)
    ensures orders[0].id !in b.index
    ensures Installed(b, Link(b, side, orders[0], true), side, orders, 1)
  {
    LinkKeepsShape(b, side, orders[0], true);
    LinkView(b, side, orders[0], true);
    assert Typed(orders[..1], side) == [orders[0].(side := side)];
  }

  lemma InstalledAll(b0: Book, b: Book, side: Side, orders: seq<Order>)
    requires Installed(b0, b, side, orders, |orders|)
    ensures WellFormed(b)
    ensures View(b, side) == Typed(orders, side) && View(b, Other(side)) == View(b0, Other(side))
    ensures forall i | 0 <= i < |orders| :: GetOrder(b, orders[i].id) == Some(orders[i].(side := side))
    ensures b.trades == b0.trades && b.last == b0.last
    ensures b.index.Keys <= b0.index.Keys + Ids(orders)
  {
    assert orders[..|orders|] == orders;
  }

  lemma LinkInstalls(b0: Book, b: Book, side: Side, orders: seq<Order>, i: nat)
    requires Installed(b0, b, side, orders, i) && i < |orders|
    ensures orders[i].id !in b.index
    ensures Installed(b0, Link(b, side, orders[i], false), side, orders, i + 1)
  {
    var o := orders[i];
    var b1 := Link(b, side, o, false);
    LinkKeepsShape(b, side, o, false);
    LinkView(b, side, o, false);
    TypedSnoc(orders, i, side);
    assert o.id in Ids(orders);
    forall j | 0 <= j < i + 1 ensures GetOrder(b1, orders[j].id) == Some(orders[j].(side := side)) {
      if j < i { assert orders[j].id != o.id; }
    }
  }

  lemma TypedSnoc(orders: seq<Order>, i: nat, side: Side)
    requires i < |orders|
    ensures Typed(orders[..i + 1], side) == Typed(orders[..i], side) + [orders[i].(side := side)]
  {
    assert orders[..i + 1] == orders[..i] + [orders[i]];
  }

  lemma {:induction false} EnlistSteps(b0: Book, b: Book, side: Side, orders: seq<Order>, i: nat)
    requires Installed(b0, b, side, orders, i)
    ensures EnlistFrom(b, side, orders, i).1 == Pass
    ensures Installed(b0, EnlistFrom(b, side, orders, i).0, side, orders, |orders|)
    decreases |orders| - i
  {
    if i < |orders| {
      LinkInstalls(b0, b, side, orders, i);
      EnlistSteps(b0, Link(b, side, orders[i], false), side, orders, i + 1);
    }
  }

  // ---------------------------------------------------------------- the constructor

  lemma {:induction false} EnlistKeepsShape(b: Book, side: Side, orders: seq<Order>, i: nat, r: Book)
    requires WellFormed(b) && i <= |orders| && r == EnlistFrom(b, side, orders, i).0
    ensures WellFormed(r)
    decreases |orders| - i
  {
    if i < |orders| && orders[i].id !in b.index {
      var b1 := Link(b, side, orders[i], i == 0);
      LinkKeepsShape(b, side, orders[i], i == 0);
      EnlistKeepsShape(b1, side, orders, i + 1, r);
    }
  }

  /** Enlisting fresh, distinct ids installs them whether or not there are any. */
  lemma EnlistInstallsAny(b: Book, side: Side, orders: seq<Order>)
    requires WellFormed(b) && FreshIds(b, orders)
    ensures Enlist(b, side, orders).1 == Pass && WellFormed(Enlist(b, side, orders).0)
    ensures View(Enlist(b, side, orders).0, side) == (if orders == [] then View(b, side) else Typed(orders, side))
    ensures View(Enlist(b, side, orders).0, Other(side)) == View(b, Other(side))
    ensures Enlist(b, side, orders).0.trades == b.trades && Enlist(b, side, orders).0.last == b.last
    ensures Enlist(b, side, orders).0.index.Keys <= b.index.Keys + Ids(orders)
  {
    if orders != [] {
      EnlistInstalls(b, side, orders);
    }
  }

  /** Ids that are distinct within and across the two sides of a snapshot. */
  predicate DistinctIds(asks: seq<Order>, bids: seq<Order>)
  {
    && (forall i, j | 0 <= i < j < |asks| :: asks[i].id != asks[j].id)
    && (forall i, j | 0 <= i < j < |bids| :: bids[i].id != bids[j].id)
    && (forall i, j | 0 <= i < |asks| && 0 <= j < |bids| :: asks[i].id != bids[j].id)
  }

  lemma BidsStayFresh(a: Book, asks: seq<Order>, bids: seq<Order>)
    requires a.index.Keys <= {} + Ids(asks) && DistinctIds(asks, bids)
    ensures forall k | 0 <= k < |bids| :: bids[k].id !in a.index
  {
  }

  /** The orders of an optional argument, none when it is absent. */
  function Given(orders: Option<seq<Order>>): seq<Order>
  {
    if orders.Some? then orders.value else []
  }

  /**
   * `new OrderBook(asks?, bids?)`: the `asks` setter when asks are given, then
   * the `bids` setter when bids are given; a throw in the first ends the
   * construction before the second.
   */
  function Build(asks: Option<seq<Order>>, bids: Option<seq<Order>>): (Book, Outcome)
  {
    var a := if asks.Some? then Enlist(Empty(), Ask, asks.value) else (Empty(), Pass);
    if a.1.Fail? || bids.None? then a else Enlist(a.0, Bid, bids.value)
  }

  /** Whatever the arguments, the constructed book is well formed, also when the construction throws. */
  lemma BuildKeepsShape(asks: Option<seq<Order>>, bids: Option<seq<Order>>)
    ensures WellFormed(Build(asks, bids).0)
  {
    var a := if asks.Some? then Enlist(Empty(), Ask, asks.value) else (Empty(), Pass);
    if asks.Some? {
      EnlistKeepsShape(Empty(), Ask, asks.value, 0, a.0);
    }
    if a.1.Pass? && bids.Some? {
      EnlistKeepsShape(a.0, Bid, bids.value, 0, Build(asks, bids).0);
    }
  }

  /**
   * Built from distinct ids, the book holds the given asks and the given bids
   * in the given order, each typed by its side, and has recorded no trade.
   */
  lemma BuildInstalls(asks: Option<seq<Order>>, bids: Option<seq<Order>>)
    requires DistinctIds(Given(asks), Given(bids))
    ensures Build(asks, bids).1 == Pass && WellFormed(Build(asks, bids).0)
    ensures View(Build(asks, bids).0, Ask) == Typed(Given(asks), Ask)
    ensures View(Build(asks, bids).0, Bid) == Typed(Given(bids), Bid)
    ensures Build(asks, bids).0.trades == map[]
  {
    var z := Empty();
    var xs, ys := Given(asks), Given(bids);
    assert View(z, Ask) == [] && View(z, Bid) == [];
    EnlistInstallsAny(z, Ask, xs);
    var a := Enlist(z, Ask, xs).0;
    assert z.index.Keys == {};
    BidsStayFresh(a, xs, ys);
    EnlistInstallsAny(a, Bid, ys);
    assert Typed([], Ask) == [] && Typed([], Bid) == [];
  }
}
