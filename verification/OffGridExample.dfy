/** Prices finer than the index keys: a buyer pays more than the limit. */
module OffGridExample {
  import opened SortedEntries
  import opened ReferenceBook
  import opened OrderLevels
  import opened Ladders
  import opened BookSideV1
  import opened BookRuns
  import V = BookV1
  import R = BPlusRuns
  import W = Walks

  /** A seller asks for more than a buyer will pay, by less than the keys tell apart. */
  predicate JustBeyond(asked: int, limit: int) {
    asked > limit && PriceToBigint(asked) == PriceToBigint(limit)
  }

  lemma {:induction false} SuchPrices()
    ensures JustBeyond(10000004900, 10000004000)
  {
  }

  lemma {:induction false} OnlyShown(side: OrderBookSide, m: Maker)
    requires side.Valid() && side.Queue() == [m] && m.id in side.orderMap
    ensures V.Shown(side) == Some(side.orderMap[m.id].decimalPrice)
  {
    MakersAt(NodesOf(side.ladder));
    hide OrderBookSide.Shaped, NodesOf, Makers;
  }

  lemma {:induction false} OneKey<V>(m: map<int, V>, key: int)
    requires m.Keys == {key}
    ensures |m| == 1
  {
    assert |m| == |m.Keys|;
  }

  method OneAsk(asked: int) returns (asks: OrderBookSide)
    ensures asks.Valid() && asks.taker == Buy && asks.Undisturbed() && !asks.Blind()
    ensures asks.Queue() == [Maker("ask", "ann", PriceToBigint(asked), 1)] && V.Shown(asks) == Some(asked)
    ensures fresh(asks) && fresh(asks.priceTree) && fresh(asks.priceTree.repr) && fresh(asks.Levels()) && fresh(asks.Orders())
  {
    hide OrderBookSide.Shaped, OrderBookSide.Leads, OrderBookSide.Wanting, PriceToBigint, R.Insert, OrderBookSide.Blind,
      OrderBookSide.Undisturbed;
    asks := new OrderBookSide(Buy, ORDER);
    asks.Add("ask", "ann", asked, 1);
    OneKey(asks.priceMap, PriceToBigint(asked));
    asks.FlatIsNotBlind();
    asks.FullOrFlatIsUndisturbed();
    OnlyShown(asks, Maker("ask", "ann", PriceToBigint(asked), 1));
  }

  lemma {:induction false} OneTaken(m: Maker, limit: int)
    requires m.price == limit && m.qty == 1
    ensures Fills(Buy, Some(limit), [m], 1) == [FillOf(m, 1)] && Positive([m])
  {
    assert [m][1..] == [];
  }

  /** The only order is the one shown. */
  lemma {:induction false} MatchedShown(side: OrderBookSide, node: OrderNode, asked: int)
    requires side.Valid() && |side.Queue()| == 1 && node in NodesOf(side.ladder) && V.Shown(side) == Some(asked)
    ensures node.decimalPrice == asked
  {
    MakersAt(NodesOf(side.ladder));
    hide OrderBookSide.Shaped, NodesOf, Makers;
  }

  /** A buyer is matched with an ask beyond the limit. */
  method PaysMore(asks: OrderBookSide, asked: int, limit: int) returns (matches: seq<V1Match>)
    requires asks.Valid() && asks.taker == Buy && asks.Undisturbed() && JustBeyond(asked, limit)
    requires asks.Queue() == [Maker("ask", "ann", PriceToBigint(asked), 1)] && V.Shown(asks) == Some(asked)
    modifies asks`priceMap, asks`priceKeys, asks`ladder, asks`emptyLevelCount, asks.priceTree, asks.priceTree.repr
    ensures |matches| == 1 && matches[0].price == asked > limit
  {
    hide OrderBookSide.Shaped, OrderBookSide.Leads, OrderBookSide.Wanting, PriceToBigint, OrderBookSide.Undisturbed;
    hide W.CourseOf, Fills, PlainAll, OrderBookSide.Aligned, NodesOf, Makers;
    var key := PriceToBigint(limit);
    asks.UndisturbedIsClear(key, 1);
    OneTaken(Maker("ask", "ann", PriceToBigint(asked), 1), key);
    matches := asks.Match(key, 1);
    MatchedShown(asks, matches[0].makerNode, asked);
  }

  /** A buyer's look ahead sees no ask within the limit, and the match that follows trades beyond it. */
  method TakesOffGrid(asked: int, limit: int) returns (seen: bool, matches: seq<V1Match>)
    requires JustBeyond(asked, limit)
    ensures !seen && |matches| == 1 && matches[0].price == asked > limit
  {
    hide OrderBookSide.Shaped, OrderBookSide.Leads, OrderBookSide.Wanting, PriceToBigint, OrderBookSide.Blind,
      OrderBookSide.Undisturbed, OrderBookSide.LookedAt;
    hide NodesOf, Makers;
    var asks := OneAsk(asked);
    var bids := new OrderBookSide(Sell, ORDER);
    seen := V.WouldMatch(asks, bids, V.BookOrder("bid", "bob", Buy, limit, 1));
    matches := PaysMore(asks, asked, limit);
  }
}
