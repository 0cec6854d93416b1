/** Both sides of the first engine's book, and the two engines side by side. */
module BookV1 {
  import opened SortedEntries
  import opened ReferenceBook
  import opened PriorityLists
  import opened EngineModel
  import opened OrderLevels
  import opened Ladders
  import opened BookSideV1
  import T = BPlusTree
  import W = Walks
  import R = BPlusRuns

  /** An order as the book takes it. */
  datatype BookOrder = BookOrder(orderId: string, userId: string, side: Side, decimalPrice: int, remainingQty: int)

  /** Two book sides share nothing. */
  ghost predicate Apart(a: OrderBookSide, b: OrderBookSide)
    reads a`ladder, b`ladder, a.priceTree`repr, b.priceTree`repr, a.Levels()`nodes, b.Levels()`nodes
  {
    && a != b && a.priceTree != b.priceTree && a.priceTree.repr !! b.priceTree.repr
    && a.Levels() !! b.Levels() && a.Orders() !! b.Orders()
  }

  /** The objects a side is made of. */
  ghost function Parts(side: OrderBookSide): set<object>
    reads side`ladder, side.priceTree`repr, side.Levels()`nodes
  {
    {side, side.priceTree} + side.priceTree.repr + side.Levels() + side.Orders()
  }

  lemma {:induction false} PartsApart(a: OrderBookSide, b: OrderBookSide)
    requires Apart(a, b)
    ensures Parts(a) !! Parts(b)
  {
  }

  /** Every part of the side was there before or is new. */
  twostate predicate OnlyGrown(side: OrderBookSide, levels: set<PriceLevel>, orders: set<OrderNode>, nodes: set<object>)
    reads side`ladder, side.Levels()`nodes, side.priceTree`repr
  {
    && (forall l :: l in side.Levels() ==> l in levels || fresh(l))
    && (forall n :: n in side.Orders() ==> n in orders || fresh(n))
    && (forall n :: n in side.priceTree.repr ==> n in nodes || fresh(n))
  }

  twostate predicate Grown(side: OrderBookSide)
    reads side`ladder, side.Levels()`nodes, side.priceTree`repr
  {
    OnlyGrown(side, old(side.Levels()), old(side.Orders()), old(side.priceTree.repr))
  }

  /** Levels have come in only for orders that rest there. */
  twostate predicate Widened(side: OrderBookSide)
    reads side`ladder, side.Levels()`nodes, side.priceTree, side`priceMap
  {
    side.WidensFrom(old(side.priceMap.Keys), old(side.IsFlat()))
  }

  /** The levels of the side and its index are those it had. */
  twostate predicate Same(side: OrderBookSide)
    reads side`priceMap, side.priceTree
  {
    side.priceMap == old(side.priceMap) && side.priceTree.tree == old(side.priceTree.tree) && side.IsFlat() == old(side.IsFlat())
  }

  /** Adding on one side leaves the other alone. */
  method AddTo(mine: OrderBookSide, other: OrderBookSide, o: BookOrder)
    requires mine.Valid() && other.Valid() && Apart(mine, other) && o.remainingQty > 0 && o.orderId !in mine.orderMap
    modifies mine, mine.priceTree, mine.priceTree.repr, mine.Levels(), mine.Orders()
    ensures mine.Valid() && other.Valid() && Apart(mine, other) && other.Queue() == old(other.Queue())
    ensures mine.Queue() == Enqueue(mine.taker, old(mine.Queue()), Maker(o.orderId, o.userId, PriceToBigint(o.decimalPrice), o.remainingQty))
    ensures Grown(mine) && Widened(mine)
    ensures other.Levels() == old(other.Levels()) && other.Orders() == old(other.Orders()) && other.priceTree.repr == old(other.priceTree.repr)
    ensures Same(other)
  {
    hide Enqueue, PriceToBigint, NodesOf, Makers, R.Insert, OrderBookSide.WidensFrom, OrderBookSide.IsFlat, OrderBookSide.Opens;
    hide OrderBookSide.Valid;
    other.IndexApart();
    PartsApart(mine, other);
    mine.Add(o.orderId, o.userId, o.decimalPrice, o.remainingQty);
  }

  method RemoveFrom(mine: OrderBookSide, other: OrderBookSide, orderId: string)
    requires mine.Valid() && other.Valid() && Apart(mine, other)
    modifies mine, mine.priceTree, mine.priceTree.repr, mine.Levels(), mine.Orders()
    ensures mine.Valid() && other.Valid() && Apart(mine, other) && other.Queue() == old(other.Queue())
    ensures mine.orderMap == old(mine.orderMap) - {orderId}
    ensures mine.Queue() == if orderId in old(mine.orderMap) then Remove(old(mine.Queue()), orderId, old(mine.orderMap)[orderId].price)
                            else old(mine.Queue())
    ensures mine.Slims() && Same(other)
  {
    hide NodesOf, Makers, OrderBookSide.Trims, OrderBookSide.Swept, OrderBookSide.Valid, Remove;
    other.IndexApart();
    PartsApart(mine, other);
    mine.RemoveOrder(orderId);
  }

  /** Whether a taker's own price reaches another's, compared as given and not as keys. */
  predicate Reaches(side: Side, price: int, other: int) {
    if side == Buy then other <= price else other >= price
  }

  /** Finds the matches of an order; the orders on both sides stay as they are. */
  method MatchFor(mine: OrderBookSide, other: OrderBookSide, incomingPrice: int, incomingQty: int) returns (matches: seq<V1Match>)
    requires mine.Valid() && other.Valid() && Apart(mine, other) && incomingQty >= 0 && mine.Clear(incomingPrice, incomingQty)
    modifies mine`priceMap, mine`priceKeys, mine`ladder, mine`emptyLevelCount, mine.priceTree, mine.priceTree.repr
    ensures mine.Valid() && other.Valid() && Apart(mine, other) && other.Queue() == old(other.Queue()) && mine.Queue() == old(mine.Queue())
    ensures mine.Levels() <= old(mine.Levels()) && mine.Orders() == old(mine.Orders()) && mine.priceTree.repr == old(mine.priceTree.repr)
    ensures PlainAll(matches) == Fills(mine.taker, Some(incomingPrice), mine.Queue(), incomingQty)
    ensures FromFront(mine.Queue(), PlainAll(matches)) && OrderBookSide.Aligned(matches, NodesOf(mine.ladder))
    ensures Served(mine.Queue(), PlainAll(matches)) == Rest(mine.taker, Some(incomingPrice), mine.Queue(), incomingQty)
    ensures forall m :: m in matches ==> m.price == m.makerNode.decimalPrice && m.makerNode.price == PriceToBigint(m.price)
    ensures forall m, limit :: m in matches && OnGrid(m.price) && OnGrid(limit) && PriceToBigint(limit) == incomingPrice ==>
              Reaches(mine.taker, limit, m.price)
    ensures other.orderMap == old(other.orderMap)
    ensures mine.Slims() && Same(other)
  {
    hide OrderBookSide.Indexed, OrderBookSide.TreeOk, AllValid, CountEmpty, OrderBookSide.Leads, OrderBookSide.Aligned,
      NodesOf, Makers;
    hide Fills, Rest, FromFront, Served, PlainAll, PriceToBigint, OnGrid, Crosses, Reaches, W.CourseOf;
    QueueWants(mine);
    FillsFromFront(mine.taker, Some(incomingPrice), mine.Queue(), incomingQty);
    matches := mine.Match(incomingPrice, incomingQty);
    forall m, limit | m in matches && OnGrid(m.price) && OnGrid(limit) && PriceToBigint(limit) == incomingPrice
      ensures Reaches(mine.taker, limit, m.price) {
      WithinOnGrid(mine.taker, limit, m.price);
    }
  }

  /** On the grid a price within the limit's key is within the limit. */
  lemma {:induction false} WithinOnGrid(taker: Side, limit: int, price: int)
    requires OnGrid(price) && OnGrid(limit) && Crosses(taker, Some(PriceToBigint(limit)), PriceToBigint(price))
    ensures Reaches(taker, limit, price)
  {
    KeyComparesIff(price, limit);
    KeyComparesIff(limit, price);
    hide PriceToBigint, OnGrid;
  }

  /** Takes what was matched from the makers. */
  method ApplyTo(mine: OrderBookSide, other: OrderBookSide, matches: seq<V1Match>)
    requires mine.Valid() && other.Valid() && Apart(mine, other)
    requires FromFront(mine.Queue(), PlainAll(matches)) && OrderBookSide.Aligned(matches, NodesOf(mine.ladder))
    modifies mine, mine.priceTree, mine.priceTree.repr, mine.Levels(), mine.Orders()
    ensures mine.Valid() && other.Valid() && Apart(mine, other) && other.Queue() == old(other.Queue())
    ensures other.orderMap == old(other.orderMap)
    ensures mine.Queue() == Served(old(mine.Queue()), PlainAll(matches))
    ensures mine.Levels() <= old(mine.Levels()) && mine.Orders() <= old(mine.Orders()) && mine.priceTree.repr == old(mine.priceTree.repr)
    ensures mine.Slims() && Same(other)
  {
    hide NodesOf, Makers, OrderBookSide.Aligned;
    hide OrderBookSide.Valid;
    hide FromFront, Served, PlainAll;
    PartsApart(mine, other);
    mine.ApplyMatches(matches);
  }

  /** Matches an order and takes what it gets from the makers. */
  method MatchAndApply(mine: OrderBookSide, other: OrderBookSide, incomingPrice: int, incomingQty: int) returns (matches: seq<V1Match>)
    requires mine.Valid() && other.Valid() && Apart(mine, other) && incomingQty >= 0 && mine.Clear(incomingPrice, incomingQty)
    modifies mine, mine.priceTree, mine.priceTree.repr, mine.Levels(), mine.Orders()
    ensures mine.Valid() && other.Valid() && Apart(mine, other) && other.Queue() == old(other.Queue())
    ensures PlainAll(matches) == Fills(mine.taker, Some(incomingPrice), old(mine.Queue()), incomingQty)
    ensures mine.Queue() == Rest(mine.taker, Some(incomingPrice), old(mine.Queue()), incomingQty)
    ensures forall m :: m in matches ==> m.price == m.makerNode.decimalPrice && m.makerNode.price == PriceToBigint(m.price)
    ensures forall m, limit :: m in matches && OnGrid(m.price) && OnGrid(limit) && PriceToBigint(limit) == incomingPrice ==>
              Reaches(mine.taker, limit, m.price)
    ensures mine.Levels() <= old(mine.Levels()) && mine.Orders() <= old(mine.Orders()) && mine.priceTree.repr == old(mine.priceTree.repr)
    ensures mine.Slims() && Same(other)
  {
    hide OrderBookSide.Indexed, OrderBookSide.TreeOk, AllValid, CountEmpty, OrderBookSide.Leads, OrderBookSide.Aligned,
      NodesOf, Makers;
    hide Fills, Rest, FromFront, Served, PlainAll;
    matches := MatchFor(mine, other, incomingPrice, incomingQty);
    ApplyTo(mine, other, matches);
  }

  lemma {:induction false} QueueWants(side: OrderBookSide)
    requires side.Valid()
    ensures Positive(side.Queue())
  {
    MakersAt(NodesOf(side.ladder));
  }

  /** The best order's price, as its owner gave it. */
  ghost function Shown(side: OrderBookSide): Option<int>
    reads side`ladder, side.Levels()`nodes
  {
    var c := NodesOf(side.ladder);
    if c == [] then None else Some(c[0].decimalPrice)
  }

  predicate Refuses(o: BookOrder, best: Option<int>) {
    best.Some? && Reaches(o.side, o.decimalPrice, best.value)
  }

  /** Looks at the best order of the other side, and misses it exactly if the look runs into an empty leaf of the index. */
  method WouldMatch(facing: OrderBookSide, own: OrderBookSide, o: BookOrder) returns (r: bool)
    requires facing.Valid() && own.Valid() && Apart(facing, own)
    modifies facing`priceMap, facing`priceKeys, facing`ladder, facing`emptyLevelCount, facing.priceTree, facing.priceTree.repr
    ensures facing.Valid() && NodesOf(facing.ladder) == old(NodesOf(facing.ladder)) && facing.priceTree.repr == old(facing.priceTree.repr)
    ensures facing.Levels() <= old(facing.Levels()) && facing.Queue() == old(facing.Queue()) && facing.Orders() == old(facing.Orders())
    ensures facing.priceTree.tree == old(facing.LookedAt()) && (old(facing.Undisturbed()) ==> facing.Undisturbed())
    ensures own.Valid() && Apart(facing, own) && own.Queue() == old(own.Queue()) && own.orderMap == old(own.orderMap)
    ensures r <==> Refuses(o, old(Shown(facing))) && !old(facing.Blind())
    ensures facing.Slims() && Same(own)
  {
    hide OrderBookSide.Indexed, OrderBookSide.TreeOk, AllValid, CountEmpty, OrderBookSide.Leads, OrderBookSide.Wanting,
      NodesOf, Makers;
    hide OrderBookSide.Blind, OrderBookSide.LookedAt, OrderBookSide.Undisturbed;
    facing.OrdersAreNodes();
    var best := facing.BestPrice();
    facing.OrdersAreNodes();
    r := best.Some? && Reaches(o.side, o.decimalPrice, best.value);
  }

  /** The look ahead compares prices and the match compares keys: it says what the match that follows will do unless the
      best order is out of reach by less than the keys tell apart. */
  lemma {:induction false} LookAheadAgreesIff(side: OrderBookSide, o: BookOrder)
    requires side.Valid() && o.side == side.taker && o.remainingQty > 0
    ensures (Refuses(o, Shown(side)) <==> Fills(o.side, Some(PriceToBigint(o.decimalPrice)), side.Queue(), o.remainingQty) != [])
            <==> (Shown(side).Some? && PriceToBigint(Shown(side).value) == PriceToBigint(o.decimalPrice) ==> Refuses(o, Shown(side)))
  {
    hide PriceToBigint, NodesOf, Makers, OnGrid;
    hide OrderBookSide.Indexed, OrderBookSide.TreeOk, AllValid, CountEmpty, OrderBookSide.Leads, OrderBookSide.Wanting;
    var c := NodesOf(side.ladder);
    MakersAt(c);
    if c != [] {
      side.KeyOfFirst();
      KeyComparesIff(c[0].decimalPrice, o.decimalPrice);
      KeyComparesIff(o.decimalPrice, c[0].decimalPrice);
    }
  }
}
