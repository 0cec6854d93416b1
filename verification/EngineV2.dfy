/** The second engine: one book per market, stop orders kept aside until their price is reached. */
module EngineV2 {
  import opened SortedEntries
  import opened ReferenceBook
  import opened EngineModel
  import opened PriceLevels
  import opened BookV2
  import opened DepthTable
  import ER = EngineRuns

  datatype TradeOutput = TradeOutput(makerOrderId: string, makerUserId: string, takerOrderId: string, takerUserId: string,
                                     price: int, quantity: int, takerSide: Side)

  datatype OrderResult =
    | Took(outcome: Outcome, trades: seq<TradeOutput>)
    | StopAccepted

  ghost function OutputsOf(o: Order, ms: seq<MatchResult>): seq<TradeOutput> {
    if ms == [] then []
    else OutputsOf(o, ms[..|ms| - 1]) + [OutputOf(o, ms[|ms| - 1])]
  }

  function OutputOf(o: Order, m: MatchResult): TradeOutput {
    TradeOutput(m.makerOrderId, m.makerUserId, o.id, o.user, m.price, m.quantity, o.side)
  }

  ghost function TradesOf(out: Outcome): seq<MatchResult> {
    if out.Filled? || out.PartiallyFilled? then out.trades else []
  }

  /** The k-th trade is with the k-th order of the other side's queue, at that order's price, between the two owners. */
  ghost predicate Reported(o: Order, q: seq<Maker>, trades: seq<TradeOutput>) {
    && |trades| <= |q|
    && forall k :: 0 <= k < |trades| ==>
         && trades[k].makerOrderId == q[k].id && trades[k].makerUserId == q[k].user && trades[k].price == q[k].price
         && trades[k].takerOrderId == o.id && trades[k].takerUserId == o.user && trades[k].takerSide == o.side
         && 0 < trades[k].quantity <= q[k].qty
  }

  lemma {:induction false} OutputsAt(o: Order, ms: seq<MatchResult>)
    ensures |OutputsOf(o, ms)| == |ms| && forall k :: 0 <= k < |ms| ==> OutputsOf(o, ms)[k] == OutputOf(o, ms[k])
  {
    if ms != [] {
      OutputsAt(o, ms[..|ms| - 1]);
    }
  }

  /** What is reported of an order, and what a market order leaves alone. */
  lemma {:induction false} AnswerTells(b: Book, o: Order)
    requires o.qty > 0 && Positive(b.bids) && Positive(b.asks)
    ensures var (b', out) := Process(b, o);
            && Reported(o, if o.side == Buy then b.asks else b.bids, OutputsOf(o, TradesOf(out)))
            && (o.kind == MarketOrder ==> NeverRests(b, b', o.side, out))
  {
    hide Fills, Rest;
    OutputsAt(o, TradesOf(Process(b, o).1));
    FillsTakeFront(o.side, LimitOf(o), Facing(b, o.side), o.qty);
    if o.kind == MarketOrder {
      MarketNeverRests(b, o);
    }
    hide Process;
  }

  /** The side of the order is as it was, and the order is filled as far as it goes or turned away. */
  ghost predicate NeverRests(b: Book, b': Book, side: Side, out: Outcome) {
    (if side == Buy then b'.bids == b.bids else b'.asks == b.asks) && (out.Rejected? || out.Filled?)
  }

  /** One order against one book. */
  method Execute(book: OrderBook, order: Order) returns (outcome: Outcome, trades: seq<TradeOutput>)
    requires book.Valid() && order.qty > 0
    modifies book, set l | l in book.bids, set l | l in book.asks
    ensures book.Valid() && (book.View(), outcome) == Process(old(book.View()), order)
    ensures trades == OutputsOf(order, TradesOf(outcome))
    ensures Reported(order, if order.side == Buy then old(book.View().asks) else old(book.View().bids), trades)
    ensures order.kind == MarketOrder ==> NeverRests(old(book.View()), book.View(), order.side, outcome)
    ensures forall l :: l in book.bids || l in book.asks ==> l in old(book.bids) || l in old(book.asks) || fresh(l)
  {
    hide Queue, Fills, Rest, SideOk, FilledQty, Trades, AfterTrades, EngineModel.Add, Enqueue, EngineModel.WouldMatch;
    hide Reported, NeverRests, Positive, OutputsOf;
    FacingPositive(book, order.side);
    FacingPositive(book, Opposite(order.side));
    AnswerTells(old(book.View()), order);
    NoOutputs(order);
    var crossing := false;
    if order.postOnly {
      crossing := book.WouldMatch(order);
    }
    if crossing {
      return Rejected, [];
    }
    var matches := book.MatchOrder(order);
    if matches == [] {
      NothingTraded(old(book.View()), order);
      if order.kind == MarketOrder || order.tif == IOC || order.tif == FOK {
        return Rejected, [];
      }
      book.Add(order);
      return Accepted, [];
    }
    var filled;
    filled, trades := Report(order, matches);
    var remaining := order.qty - filled;
    RemainingIsLeft(old(book.View()), order);
    if remaining == 0 {
      outcome := Filled(matches);
    } else if order.kind != MarketOrder && order.tif == GTC {
      book.Add(order.(qty := remaining));
      AddReads(old(AfterTrades(book.View(), order)), order, remaining);
      outcome := PartiallyFilled(matches, remaining);
    } else {
      outcome := Filled(matches);
    }
  }

  lemma {:induction false} FacingPositive(book: OrderBook, side: Side)
    requires book.Valid()
    ensures Positive(Facing(book.View(), side))
  {
    QueuePositive(book.bids);
    QueuePositive(book.asks);
  }

  lemma {:induction false} NoOutputs(o: Order)
    ensures OutputsOf(o, []) == []
  {
  }

  lemma {:induction false} NothingTraded(b: Book, o: Order)
    requires Trades(b, o) == []
    ensures FilledQty(Trades(b, o)) == 0
  {
  }

  lemma {:induction false} RemainingIsLeft(b: Book, o: Order)
    requires o.qty > 0 && Positive(Facing(b, o.side))
    ensures 0 <= FilledQty(Trades(b, o)) <= o.qty
  {
    FillsConserve(o.side, LimitOf(o), Facing(b, o.side), o.qty);
  }

  lemma {:induction false} AddReads(b: Book, o: Order, qty: int)
    ensures EngineModel.Add(b, o.(qty := qty), qty) == EngineModel.Add(b, o, qty)
  {
  }

  method Report(order: Order, matches: seq<MatchResult>) returns (filled: int, trades: seq<TradeOutput>)
    ensures filled == FilledQty(matches) && trades == OutputsOf(order, matches)
  {
    filled, trades := 0, [];
    for i := 0 to |matches|
      invariant filled == FilledQty(matches[..i]) && trades == OutputsOf(order, matches[..i])
    {
      assert matches[..i + 1][..i] == matches[..i] && matches[..i + 1] == matches[..i] + [matches[i]];
      FilledAppend(matches[..i], matches[i]);
      filled := filled + matches[i].quantity;
      trades := trades + [OutputOf(order, matches[i])];
    }
    assert matches[..|matches|] == matches;
  }

  // ---- stop orders

  predicate HitBy(o: Order, lastPrice: int) {
    var stop := if o.stopPrice.Some? then o.stopPrice.value else 0;
    if o.side == Buy then lastPrice >= stop else lastPrice <= stop
  }

  ghost function Hit(stops: seq<Order>, lastPrice: int): seq<Order> {
    if stops == [] then []
    else Hit(stops[..|stops| - 1], lastPrice) + if HitBy(stops[|stops| - 1], lastPrice) then [stops[|stops| - 1]] else []
  }

  ghost function Kept(stops: seq<Order>, lastPrice: int): seq<Order> {
    if stops == [] then []
    else Kept(stops[..|stops| - 1], lastPrice) + if HitBy(stops[|stops| - 1], lastPrice) then [] else [stops[|stops| - 1]]
  }

  lemma {:induction false} CountOne(stops: seq<Order>, s: Order, o: Order)
    ensures multiset(stops + [s])[o] == multiset(stops)[o] + (if s == o then 1 else 0) && stops + [] == stops
  {
  }

  /** Every stop order is either triggered or kept, never both and never lost. */
  lemma {:induction false} HitOrKept(stops: seq<Order>, lastPrice: int, o: Order)
    ensures multiset(Hit(stops, lastPrice))[o] == if HitBy(o, lastPrice) then multiset(stops)[o] else 0
    ensures multiset(Kept(stops, lastPrice))[o] == if HitBy(o, lastPrice) then 0 else multiset(stops)[o]
  {
    hide HitBy;
    if stops != [] {
      var before, s := stops[..|stops| - 1], stops[|stops| - 1];
      HitOrKept(before, lastPrice, o);
      assert stops == before + [s];
      CountOne(before, s, o);
      CountOne(Hit(before, lastPrice), s, o);
      CountOne(Kept(before, lastPrice), s, o);
    }
  }

  /** What is handed out was reached: a buyer's stop is at or below the price, a seller's at or above; what is kept was not. */
  lemma {:induction false} HitSides(stops: seq<Order>, lastPrice: int)
    ensures forall o :: o in Hit(stops, lastPrice) ==> Reached(o, lastPrice)
    ensures forall o :: o in Kept(stops, lastPrice) ==> !Reached(o, lastPrice)
  {
    if stops != [] {
      HitSides(stops[..|stops| - 1], lastPrice);
    }
  }

  /** An order without a stop price counts as one at zero. */
  ghost predicate Reached(o: Order, lastPrice: int) {
    match (o.side, o.stopPrice)
    case (Buy, Some(stop)) => stop <= lastPrice
    case (Sell, Some(stop)) => stop >= lastPrice
    case (Buy, None) => 0 <= lastPrice
    case (Sell, None) => 0 >= lastPrice
  }

  /** What is still waiting after a run of prices, and everything triggered on the way. */
  ghost function Waiting(stops: seq<Order>, prices: seq<int>): seq<Order> {
    if prices == [] then stops else Kept(Waiting(stops, prices[..|prices| - 1]), prices[|prices| - 1])
  }

  ghost function Triggered(stops: seq<Order>, prices: seq<int>): seq<Order> {
    if prices == [] then []
    else Triggered(stops, prices[..|prices| - 1]) + Hit(Waiting(stops, prices[..|prices| - 1]), prices[|prices| - 1])
  }

  /** Some price was at or beyond the order's stop. */
  ghost predicate EverHit(o: Order, prices: seq<int>) {
    exists i :: 0 <= i < |prices| && Reached(o, prices[i])
  }

  lemma {:induction false} HitIsReached(o: Order, lastPrice: int)
    ensures HitBy(o, lastPrice) <==> Reached(o, lastPrice)
  {
  }

  /** Over any run of prices each stop order is triggered exactly once if some price reached it, and waits otherwise. */
  lemma {:induction false} StopsTriggerOnce(stops: seq<Order>, prices: seq<int>, o: Order)
    ensures multiset(Triggered(stops, prices))[o] == if EverHit(o, prices) then multiset(stops)[o] else 0
    ensures multiset(Waiting(stops, prices))[o] == if EverHit(o, prices) then 0 else multiset(stops)[o]
  {
    if prices != [] {
      var n := |prices| - 1;
      StopsTriggerOnce(stops, prices[..n], o);
      HitOrKept(Waiting(stops, prices[..n]), prices[n], o);
      EverHitLater(o, prices);
      HitIsReached(o, prices[n]);
    }
    hide EverHit, HitBy, Reached;
  }

  lemma {:induction false} EverHitLater(o: Order, prices: seq<int>)
    requires prices != []
    ensures EverHit(o, prices) <==> EverHit(o, prices[..|prices| - 1]) || Reached(o, prices[|prices| - 1])
  {
    var n := |prices| - 1;
    if EverHit(o, prices) && !Reached(o, prices[n]) {
      var i :| 0 <= i < |prices| && Reached(o, prices[i]);
      assert Reached(o, prices[..n][i]);
    }
    if EverHit(o, prices[..n]) {
      var i :| 0 <= i < n && Reached(o, prices[..n][i]);
      assert Reached(o, prices[i]);
    }
  }

  // ---- the engine

  class MatchingEngine {
    var books: map<string, OrderBook>
    var stopOrders: map<string, seq<Order>>

    /** The objects that make up the books. */
    ghost function Books(): set<OrderBook>
      reads this
    {
      set m | m in books :: books[m]
    }

    ghost function Levels(): set<PriceLevel>
      reads this, Books()
    {
      (set m, l | m in books && l in books[m].bids :: l) + (set m, l | m in books && l in books[m].asks :: l)
    }

    /** Each market has its own sound book. */
    ghost predicate Valid()
      reads this, Books(), Levels()
    {
      forall m :: m in books ==> books[m].market == m && books[m].Valid()
    }

    ghost function View(market: string): Book
      reads this, Books(), Levels()
    {
      if market in books then books[market].View() else Book([], [])
    }

    ghost function Stops(market: string): seq<Order>
      reads this
    {
      if market in stopOrders then stopOrders[market] else []
    }

    constructor ()
      ensures Valid() && (forall m :: View(m) == Book([], []) && Stops(m) == [])
      ensures fresh(Books()) && fresh(Levels())
    {
      books, stopOrders := map[], map[];
    }

    /** The book of a market, created on first use. */
    method BookFor(market: string) returns (book: OrderBook)
      requires Valid()
      modifies this
      ensures Valid() && market in books && book == books[market] && stopOrders == old(stopOrders)
      ensures forall m :: View(m) == old(View(m))
      ensures book in old(Books()) || fresh(book)
      ensures forall l :: l in book.bids || l in book.asks ==> l in old(Levels())
      ensures Books() == old(Books()) + {book} && Levels() <= old(Levels())
    {
      hide SideOk, Queue;
      if market !in books {
        var empty := new OrderBook(market);
        NewBook(books, market, empty);
        books := books[market := empty];
      } else {
        KnownBook(market);
      }
      book := books[market];
    }

    lemma {:induction false} KnownBook(market: string)
      requires market in books
      ensures books[market] in Books() && Books() + {books[market]} == Books()
    {
    }

    static lemma {:induction false} NewBook(books: map<string, OrderBook>, market: string, book: OrderBook)
      requires market !in books
      ensures var now := books[market := book]; (set m | m in now :: now[m]) == (set m | m in books :: books[m]) + {book}
    {
      var now := books[market := book];
      assert now[market] == book;
      forall m | m in books ensures now[m] == books[m] {
      }
    }

    method ProcessOrder(order: Order) returns (result: OrderResult)
      requires Valid() && order.qty > 0
      modifies this, Books(), Levels()
      ensures Valid()
      ensures forall m :: m != order.market ==> View(m) == old(View(m)) && Stops(m) == old(Stops(m))
      ensures order.kind in {StopLimit, StopMarket} ==>
                result == StopAccepted && View(order.market) == old(View(order.market))
                && Stops(order.market) == old(Stops(order.market)) + [order]
      ensures order.kind !in {StopLimit, StopMarket} ==>
                && result.Took? && Stops(order.market) == old(Stops(order.market))
                && (View(order.market), result.outcome) == Process(old(View(order.market)), order)
                && result.trades == OutputsOf(order, TradesOf(result.outcome))
                && Reported(order, if order.side == Buy then old(View(order.market)).asks else old(View(order.market)).bids, result.trades)
      ensures order.kind == MarketOrder ==> NeverRests(old(View(order.market)), View(order.market), order.side, result.outcome)
      ensures fresh(Books() - old(Books())) && forall l :: l in Levels() ==> l in old(Levels()) || fresh(l)
    {
      hide Process, Queue, SideOk, Reported, NeverRests;
      if order.kind == StopLimit || order.kind == StopMarket {
        var stops := if order.market in stopOrders then stopOrders[order.market] else [];
        stopOrders := stopOrders[order.market := stops + [order]];
        return StopAccepted;
      }
      var outcome, trades := ProcessNow(order);
      result := Took(outcome, trades);
    }

    /** An order that is not kept aside goes to the book of its market at once. */
    method ProcessNow(order: Order) returns (outcome: Outcome, trades: seq<TradeOutput>)
      requires Valid() && order.qty > 0
      modifies this, Books(), Levels()
      ensures Valid() && stopOrders == old(stopOrders)
      ensures forall m :: m != order.market ==> View(m) == old(View(m))
      ensures (View(order.market), outcome) == Process(old(View(order.market)), order) && trades == OutputsOf(order, TradesOf(outcome))
      ensures Reported(order, if order.side == Buy then old(View(order.market)).asks else old(View(order.market)).bids, trades)
      ensures order.kind == MarketOrder ==> NeverRests(old(View(order.market)), View(order.market), order.side, outcome)
      ensures fresh(Books() - old(Books())) && forall l :: l in Levels() ==> l in old(Levels()) || fresh(l)
    {
      hide Process, MatchingEngine.Valid, MatchingEngine.View, MatchingEngine.Levels, MatchingEngine.Books, OutputsOf, TradesOf;
      hide Reported, NeverRests;
      var book := BookFor(order.market);
      outcome, trades := ExecuteIn(book, order);
    }

    method ExecuteIn(book: OrderBook, order: Order) returns (outcome: Outcome, trades: seq<TradeOutput>)
      requires Valid() && order.qty > 0 && order.market in books && book == books[order.market]
      modifies book, set l | l in book.bids, set l | l in book.asks
      ensures Valid()
      ensures forall m :: m != order.market ==> View(m) == old(View(m))
      ensures (View(order.market), outcome) == Process(old(View(order.market)), order) && trades == OutputsOf(order, TradesOf(outcome))
      ensures Reported(order, if order.side == Buy then old(View(order.market)).asks else old(View(order.market)).bids, trades)
      ensures order.kind == MarketOrder ==> NeverRests(old(View(order.market)), View(order.market), order.side, outcome)
      ensures forall l :: l in Levels() ==> l in old(Levels()) || fresh(l)
    {
      hide Process, Queue, SideOk, OutputsOf, TradesOf, Reported, NeverRests;
      outcome, trades := Execute(book, order);
    }

    method CancelOrder(market: string, id: string, side: Side, price: int) returns (removed: bool)
      requires Valid()
      modifies Books(), Levels()
      ensures Valid() && View(market) == Cancel(old(View(market)), id, side, price)
      ensures Withdraws(old(View(market)), View(market), id, side, price)
      ensures forall m :: m != market ==> View(m) == old(View(m))
      ensures removed <==> |Facing(View(market), Opposite(side))| < |Facing(old(View(market)), Opposite(side))|
      ensures Books() == old(Books()) && Levels() <= old(Levels())
    {
      hide Queue, SideOk, Leaves;
      CancelWithdraws(View(market), id, side, price);
      removed := false;
      if market in books {
        removed := books[market].Cancel(id, side, price);
      }
    }

    /** Hands out the stop orders the last price reaches and keeps the others, both in order of arrival. */
    method CheckStops(market: string, lastPrice: int) returns (triggered: seq<Order>)
      modifies this
      ensures books == old(books) && forall m :: m != market ==> Stops(m) == old(Stops(m))
      ensures triggered == Hit(old(Stops(market)), lastPrice) && Stops(market) == Kept(old(Stops(market)), lastPrice)
      ensures (forall o :: o in triggered ==> Reached(o, lastPrice)) && forall o :: o in Stops(market) ==> !Reached(o, lastPrice)
      ensures Books() == old(Books()) && Levels() == old(Levels())
    {
      triggered := [];
      HitSides(Stops(market), lastPrice);
      if market !in stopOrders {
        return;
      }
      var stops, kept := stopOrders[market], [];
      for i := 0 to |stops|
        invariant triggered == Hit(stops[..i], lastPrice) && kept == Kept(stops[..i], lastPrice)
      {
        assert stops[..i + 1][..i] == stops[..i];
        if HitBy(stops[i], lastPrice) {
          triggered := triggered + [stops[i]];
        } else {
          kept := kept + [stops[i]];
        }
      }
      assert stops[..|stops|] == stops;
      stopOrders := stopOrders[market := kept];
    }
  }

  /** A new engine serving any requests to one market has the book of the run, so it is never crossed. */
  method Serve(market: string, ops: seq<ER.Op>) returns (engine: MatchingEngine)
    requires forall op :: op in ops ==> ER.Valid(op) && (op.Submit? ==> op.order.market == market)
    ensures engine.Valid() && engine.View(market) == ER.Run(ops) && BookOk(engine.View(market))
  {
    hide ER.Step, BookOk, MatchingEngine.Valid, MatchingEngine.View;
    engine := new MatchingEngine();
    for i := 0 to |ops|
      invariant engine.Valid() && engine.View(market) == ER.Run(ops[..i])
      invariant fresh(engine) && fresh(engine.Books()) && fresh(engine.Levels())
    {
      assert ops[..i + 1][..i] == ops[..i] && ops[i] in ops;
      ServeOne(engine, market, ops[i]);
    }
    assert ops[..|ops|] == ops;
    ER.RunOk(ops);
  }

  method ServeOne(engine: MatchingEngine, market: string, op: ER.Op)
    requires engine.Valid() && ER.Valid(op) && (op.Submit? ==> op.order.market == market)
    modifies engine, engine.Books(), engine.Levels()
    ensures engine.Valid() && engine.View(market) == ER.Step(old(engine.View(market)), op)
    ensures fresh(engine.Books() - old(engine.Books())) && forall l :: l in engine.Levels() ==> l in old(engine.Levels()) || fresh(l)
  {
    hide Process, Cancel, MatchingEngine.Valid, MatchingEngine.View;
    match op
    case Submit(order) =>
      var result := engine.ProcessOrder(order);
    case Withdraw(id, side, price) =>
      var removed := engine.CancelOrder(market, id, side, price);
  }

  /** After any run, the depth read from the running totals of the levels is the depth the depth service computes from a
      table that holds the orders that rest, in whatever order the table lists them. */
  method DepthBothWays(market: string, ops: seq<ER.Op>, rows: seq<OrderRow>, n: nat)
    returns (bids: seq<Level>, asks: seq<Level>, tableBids: seq<Level>, tableAsks: seq<Level>)
    requires forall op :: op in ops ==> ER.Valid(op) && (op.Submit? ==> op.order.market == market)
    requires multiset(RowsOn(rows, Buy)) == multiset(Flat(ER.Run(ops).bids))
    requires multiset(RowsOn(rows, Sell)) == multiset(Flat(ER.Run(ops).asks))
    ensures bids == tableBids == Take(DepthOf(ER.Run(ops).bids), n) && asks == tableAsks == Take(DepthOf(ER.Run(ops).asks), n)
  {
    hide ER.Run, IsDepth, RowsOn, Flat, SideOk, Queue;
    var engine := Serve(market, ops);
    bids, asks := [], [];
    if market in engine.books {
      bids, asks := engine.books[market].Depth(n);
    }
    tableBids, tableAsks := BuildDepth(rows, n);
    RunIsSorted(ops);
    forall d | IsDepth(Sell, RowsOn(rows, Buy), d) ensures d == DepthOf(ER.Run(ops).bids) {
      TableIsBook(Sell, ER.Run(ops).bids, rows, Buy, d);
    }
    forall d | IsDepth(Buy, RowsOn(rows, Sell), d) ensures d == DepthOf(ER.Run(ops).asks) {
      TableIsBook(Buy, ER.Run(ops).asks, rows, Sell, d);
    }
  }

  lemma {:induction false} RunIsSorted(ops: seq<ER.Op>)
    requires forall op :: op in ops ==> ER.Valid(op)
    ensures Priority(Sell, ER.Run(ops).bids) && Priority(Buy, ER.Run(ops).asks)
  {
    ER.RunOk(ops);
    hide Priority, Uncrossed, Positive;
  }
}
