/** The two engines give the same fills and leave the same orders behind. */
module TwoEngines {
  import opened SortedEntries
  import opened ReferenceBook
  import opened EngineModel
  import opened Ladders
  import opened OrderLevels
  import V1 = BookSideV1
  import opened BookV1
  import V2 = BookV2

  /** From equal resting orders, with prices given as keys, one limit order makes the same trades in both engines, and the
      same orders, in the same order and with the same quantities, are left. The first engine reports each trade at the price
      its maker gave, which on the grid is the price the second reports. */
  method MatchInBoth(side: V1.OrderBookSide, other: V1.OrderBookSide, book: V2.OrderBook, order: Order)
    returns (first: seq<V1.V1Match>, second: seq<MatchResult>)
    requires side.Valid() && other.Valid() && Apart(side, other) && book.Valid() && side.Clear(order.price, order.qty)
    requires order.kind == LimitOrder && order.qty > 0 && side.taker == order.side
    requires side.Queue() == Facing(book.View(), order.side)
    modifies side, side.priceTree, side.priceTree.repr, side.Levels(), side.Orders()
    modifies book, set l | l in book.bids, set l | l in book.asks
    ensures side.Valid() && other.Valid() && Apart(side, other) && book.Valid()
    ensures side.Levels() <= old(side.Levels()) && side.Orders() <= old(side.Orders()) && side.priceTree.repr == old(side.priceTree.repr)
    ensures forall l :: l in book.bids || l in book.asks ==> l in old(book.bids) || l in old(book.asks)
    ensures V1.PlainAll(first) == second
    ensures forall i :: 0 <= i < |second| && V1.OnGrid(first[i].price) ==> first[i].price == second[i].price * V1.GRID
    ensures side.Queue() == Facing(book.View(), order.side)
  {
    hide Fills, Rest, V1.PlainAll, V1.PriceToBigint, V1.OnGrid, V2.OrderBook.Valid, V2.OrderBook.View, Apart;
    hide V1.OrderBookSide.Valid, V1.OrderBookSide.Queue;
    first := MatchFirst(side, other, book, order);
    second := MatchSecond(side, other, book, order);
    forall i | 0 <= i < |first| && V1.OnGrid(first[i].price) ensures first[i].price == V1.PlainAll(first)[i].price * V1.GRID {
      V1.KeyOfGrid(first[i].price);
    }
  }

  method MatchFirst(side: V1.OrderBookSide, other: V1.OrderBookSide, ghost book: V2.OrderBook, order: Order)
    returns (matches: seq<V1.V1Match>)
    requires side.Valid() && other.Valid() && Apart(side, other) && book.Valid() && side.Clear(order.price, order.qty) && order.qty > 0
    modifies side, side.priceTree, side.priceTree.repr, side.Levels(), side.Orders()
    ensures side.Valid() && other.Valid() && Apart(side, other) && book.Valid() && book.View() == old(book.View())
    ensures book.bids == old(book.bids) && book.asks == old(book.asks)
    ensures side.Levels() <= old(side.Levels()) && side.Orders() <= old(side.Orders()) && side.priceTree.repr == old(side.priceTree.repr)
    ensures V1.PlainAll(matches) == Fills(side.taker, Some(order.price), old(side.Queue()), order.qty)
    ensures side.Queue() == Rest(side.taker, Some(order.price), old(side.Queue()), order.qty)
    ensures forall m :: m in matches ==> m.makerNode.price == V1.PriceToBigint(m.price)
  {
    hide NodesOf, Makers, Fills, Rest, V1.PlainAll, V2.SideOk, V2.Queue, V1.PriceToBigint;
    hide V1.OrderBookSide.Valid;
    NothingShared(side, other, book);
    matches := MatchAndApply(side, other, order.price, order.qty);
  }

  method MatchSecond(ghost side: V1.OrderBookSide, ghost other: V1.OrderBookSide, book: V2.OrderBook, order: Order)
    returns (matches: seq<MatchResult>)
    requires side.Valid() && other.Valid() && Apart(side, other) && book.Valid() && order.qty > 0
    modifies book, set l | l in book.bids, set l | l in book.asks
    ensures side.Valid() && other.Valid() && Apart(side, other) && book.Valid() && side.Queue() == old(side.Queue())
    ensures side.Levels() == old(side.Levels()) && side.Orders() == old(side.Orders()) && side.priceTree.repr == old(side.priceTree.repr)
    ensures forall l :: l in book.bids || l in book.asks ==> l in old(book.bids) || l in old(book.asks)
    ensures book.View() == AfterTrades(old(book.View()), order) && matches == Trades(old(book.View()), order)
  {
    hide NodesOf, Makers, Fills, Rest, V2.OrderBook.Valid, V2.OrderBook.View;
    hide V1.OrderBookSide.Valid;
    NothingShared(side, other, book);
    matches := book.MatchOrder(order);
  }

  /** The engines have no object in common. */
  lemma {:induction false} NothingShared(side: V1.OrderBookSide, other: V1.OrderBookSide, book: V2.OrderBook)
    ensures (book as object) !in Parts(side) + Parts(other)
    ensures forall l :: l in book.bids || l in book.asks ==> (l as object) !in Parts(side) + Parts(other)
  {
  }
}
