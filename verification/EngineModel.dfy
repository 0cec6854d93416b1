/** One market of the matching engine as a state machine over the two priority lists. */
module EngineModel {
  import opened SortedEntries
  import opened ReferenceBook

  datatype Kind = LimitOrder | MarketOrder | StopLimit | StopMarket
  datatype TimeInForce = GTC | IOC | FOK

  datatype Order = Order(id: string, user: string, market: string, side: Side, kind: Kind, price: int, qty: int,
                         tif: TimeInForce, postOnly: bool, stopPrice: Option<int>)

  datatype Book = Book(bids: seq<Maker>, asks: seq<Maker>)

  datatype Outcome =
    | Accepted
    | Rejected
    | Filled(trades: seq<MatchResult>)
    | PartiallyFilled(trades: seq<MatchResult>, remaining: int)

  function Opposite(side: Side): Side { if side == Buy then Sell else Buy }

  /** The resting orders a taker on this side trades with. */
  ghost function Facing(b: Book, side: Side): seq<Maker> { if side == Buy then b.asks else b.bids }

  ghost function WithFacing(b: Book, side: Side, q: seq<Maker>): Book {
    if side == Buy then b.(asks := q) else b.(bids := q)
  }

  function LimitOf(o: Order): Limit { if o.kind == MarketOrder then None else Some(o.price) }

  ghost predicate WouldMatch(b: Book, o: Order) {
    var q := Facing(b, o.side);
    q != [] && Crosses(o.side, Some(o.price), q[0].price)
  }

  ghost function Trades(b: Book, o: Order): seq<MatchResult> {
    Fills(o.side, LimitOf(o), Facing(b, o.side), o.qty)
  }

  ghost function AfterTrades(b: Book, o: Order): Book {
    WithFacing(b, o.side, Rest(o.side, LimitOf(o), Facing(b, o.side), o.qty))
  }

  /** The order comes to rest on its own side. */
  ghost function Add(b: Book, o: Order, qty: int): Book {
    var taker := Opposite(o.side);
    WithFacing(b, taker, Enqueue(taker, Facing(b, taker), Maker(o.id, o.user, o.price, qty)))
  }

  ghost function Process(b: Book, o: Order): (Book, Outcome) {
    if o.postOnly && WouldMatch(b, o) then (b, Rejected)
    else
      var ms, b' := Trades(b, o), AfterTrades(b, o);
      var remaining := o.qty - FilledQty(ms);
      if ms == [] then
        if o.kind == MarketOrder || o.tif == IOC || o.tif == FOK then (b', Rejected) else (Add(b', o, o.qty), Accepted)
      else if remaining == 0 then (b', Filled(ms))
      else if o.kind != MarketOrder && o.tif == GTC then (Add(b', o, remaining), PartiallyFilled(ms, remaining))
      else (b', Filled(ms))
  }

  ghost function Cancel(b: Book, id: string, side: Side, price: int): Book {
    var taker := Opposite(side);
    WithFacing(b, taker, Remove(Facing(b, taker), id, price))
  }

  // ---- safety of every step

  /** Every bid is below every ask. */
  ghost predicate Uncrossed(b: Book) {
    forall i, j :: 0 <= i < |b.bids| && 0 <= j < |b.asks| ==> b.bids[i].price < b.asks[j].price
  }

  ghost predicate BookOk(b: Book) {
    Priority(Sell, b.bids) && Priority(Buy, b.asks) && Positive(b.bids) && Positive(b.asks) && Uncrossed(b)
  }

  /** Orders of m all come, by price, from q. */
  ghost predicate PricesWithin(m: seq<Maker>, q: seq<Maker>) {
    forall i :: 0 <= i < |m| ==> exists j :: 0 <= j < |q| && q[j].price == m[i].price
  }

  lemma {:induction false} RestPricesWithin(taker: Side, limit: Limit, q: seq<Maker>, qty: int)
    ensures PricesWithin(Rest(taker, limit, q, qty), q)
  {
    var r := Rest(taker, limit, q, qty);
    if Stops(taker, limit, q, qty) {
      assert r == q;
    } else if q[0].qty <= qty {
      RestPricesWithin(taker, limit, q[1..], qty - q[0].qty);
      forall i | 0 <= i < |r| ensures exists j :: 0 <= j < |q| && q[j].price == r[i].price {
        var j :| 0 <= j < |q[1..]| && q[1..][j].price == r[i].price;
        assert q[j + 1] == q[1..][j];
      }
    } else {
      assert r == [q[0].(qty := q[0].qty - qty)] + q[1..];
      forall i | 0 <= i < |r| ensures exists j :: 0 <= j < |q| && q[j].price == r[i].price {
        assert q[i].price == r[i].price;
      }
    }
    hide Rest;
  }

  lemma {:induction false} AfterTradesOk(b: Book, o: Order)
    requires BookOk(b) && o.qty > 0
    ensures BookOk(AfterTrades(b, o))
    ensures FilledQty(Trades(b, o)) < o.qty ==> NothingCrosses(o.side, LimitOf(o), Facing(AfterTrades(b, o), o.side))
    ensures Trades(b, o) == [] ==> AfterTrades(b, o) == b
  {
    var q := Facing(b, o.side);
    RestKeepsPriority(o.side, LimitOf(o), q, o.qty);
    FillsConserve(o.side, LimitOf(o), q, o.qty);
    ServedOrUncrossed(o.side, LimitOf(o), q, o.qty);
    RestPricesWithin(o.side, LimitOf(o), q, o.qty);
    RestKeepsUncrossed(b, o.side, Rest(o.side, LimitOf(o), q, o.qty));
    assert Trades(b, o) == [] ==> Stops(o.side, LimitOf(o), q, o.qty);
    hide Rest, Fills, Priority, Positive, Uncrossed, NothingCrosses;
  }

  lemma {:induction false} RestKeepsUncrossed(b: Book, side: Side, r: seq<Maker>)
    requires Uncrossed(b) && PricesWithin(r, Facing(b, side))
    ensures Uncrossed(WithFacing(b, side, r))
  {
  }

  lemma {:induction false} EnqueueAdds(taker: Side, q: seq<Maker>, m: Maker)
    ensures forall x :: x in Enqueue(taker, q, m) ==> x in q || x == m
    ensures m in Enqueue(taker, q, m) && |Enqueue(taker, q, m)| == |q| + 1
  {
    if q != [] && !Better(taker, m.price, q[0].price) {
      EnqueueAdds(taker, q[1..], m);
    }
  }

  /** An order that nothing opposite crosses can rest. */
  lemma {:induction false} AddOk(b: Book, o: Order, qty: int)
    requires BookOk(b) && qty > 0 && NothingCrosses(o.side, Some(o.price), Facing(b, o.side))
    ensures BookOk(Add(b, o, qty))
  {
    var taker := Opposite(o.side);
    var m, q := Maker(o.id, o.user, o.price, qty), Facing(b, taker);
    var e := Enqueue(taker, q, m);
    EnqueueKeepsPriority(taker, q, m);
    EnqueueAdds(taker, q, m);
    forall i | 0 <= i < |e| ensures e[i].qty > 0 {
      assert e[i] in e;
    }
    var f := Facing(b, o.side);
    forall i, j | 0 <= i < |e| && 0 <= j < |f|
      ensures if o.side == Buy then e[i].price < f[j].price else f[j].price < e[i].price
    {
      assert e[i] in e;
      if e[i] != m {
        var k :| 0 <= k < |q| && q[k] == e[i];
      }
    }
    hide Enqueue;
  }

  lemma {:induction false} ProcessOk(b: Book, o: Order)
    requires BookOk(b) && o.qty > 0
    ensures BookOk(Process(b, o).0)
  {
    AfterTradesOk(b, o);
    FillsConserve(o.side, LimitOf(o), Facing(b, o.side), o.qty);
    var b', remaining := AfterTrades(b, o), o.qty - FilledQty(Trades(b, o));
    if remaining > 0 && o.kind != MarketOrder {
      AddOk(b', o, remaining);
    }
    assert Trades(b, o) == [] ==> remaining == o.qty;
    hide BookOk, AfterTrades, Trades, WouldMatch, Add, Fills, FilledQty, NothingCrosses;
  }

  /** A buyer's order leaves the bids, a seller's the asks, and nobody else moves. */
  ghost predicate Withdraws(b: Book, b': Book, id: string, side: Side, price: int) {
    if side == Buy then b'.asks == b.asks && Leaves(b.bids, b'.bids, id, price)
    else b'.bids == b.bids && Leaves(b.asks, b'.asks, id, price)
  }

  lemma {:induction false} CancelWithdraws(b: Book, id: string, side: Side, price: int)
    ensures Withdraws(b, Cancel(b, id, side, price), id, side, price)
  {
    hide Leaves, Remove;
    RemoveLeaves(b.bids, id, price);
    RemoveLeaves(b.asks, id, price);
  }

  lemma {:induction false} CancelOk(b: Book, id: string, side: Side, price: int)
    requires BookOk(b)
    ensures BookOk(Cancel(b, id, side, price))
  {
    var taker := Opposite(side);
    var q := Facing(b, taker);
    var r := Remove(q, id, price);
    RemoveKeepsPriority(taker, q, id, price);
    forall i | 0 <= i < |r| ensures r[i].qty > 0 && exists j :: 0 <= j < |q| && q[j].price == r[i].price {
      assert r[i] in q;
    }
    RestKeepsUncrossed(b, taker, r);
    hide Remove;
  }

  // ---- what rests and what does not

  /** The resting orders on this side. */
  ghost function Own(b: Book, side: Side): seq<Maker> { if side == Buy then b.bids else b.asks }

  /** Nothing of a market order ever rests: it is filled as far as the other side goes, or turned away when nothing is there. */
  lemma {:induction false} MarketNeverRests(b: Book, o: Order)
    requires o.qty > 0 && o.kind == MarketOrder
    ensures var (b', out) := Process(b, o); var q := if o.side == Buy then b.asks else b.bids;
            && (if o.side == Buy then b'.bids == b.bids else b'.asks == b.asks)
            && (out.Rejected? || out.Filled?) && (out.Rejected? ==> b' == b)
            && (!o.postOnly ==> (out.Rejected? <==> q == []))
  {
    hide Fills, Rest, FilledQty;
    MarketTakes(b, o);
  }

  /** A market order finds something exactly if something rests on the other side. */
  lemma {:induction false} MarketTakes(b: Book, o: Order)
    requires o.qty > 0 && o.kind == MarketOrder
    ensures Trades(b, o) == [] <==> (if o.side == Buy then b.asks else b.bids) == []
    ensures Trades(b, o) == [] ==> AfterTrades(b, o) == b
  {
  }

  /** What each answer means: filled is all of the order, or all there was for one that may not rest; partially filled is a limit
      order good till cancelled with the rest still wanted; accepted is one with nothing traded; rejected is an order that
      found nothing and may not rest, or a post-only one. */
  lemma {:induction false} AnswerMeans(b: Book, o: Order)
    requires o.qty > 0 && o.kind in {LimitOrder, MarketOrder} && Positive(b.bids) && Positive(b.asks)
    ensures var out := Process(b, o).1; var mayRest := o.kind == LimitOrder && o.tif == GTC;
            match out
            case Filled(ms) => 0 < FilledQty(ms) <= o.qty && (mayRest ==> FilledQty(ms) == o.qty)
            case PartiallyFilled(ms, left) => 0 < FilledQty(ms) < o.qty && left == o.qty - FilledQty(ms) && mayRest
            case Accepted => mayRest
            case Rejected => mayRest ==> o.postOnly
    ensures var out := Process(b, o).1;
            out.Accepted? || (out.Rejected? && !o.postOnly) ==> Fills(o.side, LimitOf(o), if o.side == Buy then b.asks else b.bids, o.qty) == []
  {
    hide Fills, FilledQty;
    FillsConserve(o.side, LimitOf(o), Facing(b, o.side), o.qty);
    SomeQty(o.side, LimitOf(o), Facing(b, o.side), o.qty);
  }

  lemma {:induction false} SomeQty(taker: Side, limit: Limit, q: seq<Maker>, qty: int)
    requires Positive(q) && qty > 0
    ensures Fills(taker, limit, q, qty) != [] ==> FilledQty(Fills(taker, limit, q, qty)) > 0
  {
    if !Stops(taker, limit, q, qty) {
      FillsUnfold(taker, limit, q, qty);
      FillsConserve(taker, limit, q[1..], qty - MinQty(qty, q[0].qty));
      hide Fills;
    }
  }

  /** On the order's own side the book changes exactly if the order is a limit order good till cancelled, is not refused and
      is not filled: then what is left of it rests, under its own name and at its own price, behind all of its price. */
  lemma {:induction false} RestsIff(b: Book, o: Order)
    requires BookOk(b) && o.qty > 0 && o.kind in {LimitOrder, MarketOrder}
    ensures var (b', out) := Process(b, o);
            var left := o.qty - FilledQty(if out.Filled? || out.PartiallyFilled? then out.trades else []);
            Own(b', o.side) == if o.kind == LimitOrder && o.tif == GTC && left > 0 && !out.Rejected?
                               then Enqueue(Opposite(o.side), Own(b, o.side), Maker(o.id, o.user, o.price, left))
                               else Own(b, o.side)
    ensures Process(b, o).1.Accepted? || Process(b, o).1.PartiallyFilled? ==> o.kind == LimitOrder && o.tif == GTC
    ensures o.kind == LimitOrder && o.tif == GTC && Process(b, o).1.Rejected? ==> o.postOnly
  {
    AfterTradesOk(b, o);
    FillsConserve(o.side, LimitOf(o), Facing(b, o.side), o.qty);
    assert Trades(b, o) == [] ==> FilledQty(Trades(b, o)) == 0;
    hide BookOk, Fills, Rest, Enqueue, FilledQty;
  }

  // ---- post-only

  /** For a limit order the look ahead is exact. */
  lemma {:induction false} WouldMatchIff(b: Book, o: Order)
    requires o.qty > 0 && o.kind == LimitOrder
    ensures WouldMatch(b, o) <==> Trades(b, o) != []
  {
  }

  /** An accepted post-only limit order trades with nobody on entry and rests whole. */
  lemma {:induction false} PostOnlyNeverTakes(b: Book, o: Order)
    requires BookOk(b) && o.qty > 0 && o.kind == LimitOrder && o.postOnly
    ensures var (b', out) := Process(b, o);
            && (out.Accepted? || out.Rejected?)
            && (out.Accepted? ==> b' == Add(b, o, o.qty) && NothingCrosses(o.side, Some(o.price), Facing(b, o.side)))
            && (out.Rejected? ==> b' == b)
  {
    WouldMatchIff(b, o);
    AfterTradesOk(b, o);
  }

  /** For a market order the look ahead compares with the meaningless price of the order: it is wrong exactly when
      there is something to trade with and that price does not reach it. */
  lemma {:induction false} MarketLookAheadIff(b: Book, o: Order)
    requires BookOk(b) && o.qty > 0 && o.kind == MarketOrder
    ensures (WouldMatch(b, o) <==> Trades(b, o) != []) <==>
            Facing(b, o.side) == [] || Crosses(o.side, Some(o.price), Facing(b, o.side)[0].price)
  {
  }

  lemma {:induction false} PostOnlyMarketBuyTakes()
    ensures var b := Book([], [Maker("a", "seller", 100, 5)]);
            var o := Order("m", "buyer", "SOL-USDC", Buy, MarketOrder, 0, 5, IOC, true, None);
            BookOk(b) && Process(b, o).1 == Filled([MatchResult("a", "seller", 100, 5, 5)])
  {
    var q := [Maker("a", "seller", 100, 5)];
    assert Fills(Buy, None, q, 5) == [MatchResult("a", "seller", 100, 5, 5)];
  }
}
