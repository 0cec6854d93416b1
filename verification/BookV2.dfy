/** The order book of the second engine: price levels kept in price order, matched in place. */
module BookV2 {
  import opened SortedEntries
  import opened ReferenceBook
  import opened EngineModel
  import opened PriorityLists
  import opened PriceLevels
  import opened DepthTable

  // ---- levels in order of price, best first, and the priority list they stand for

  ghost function Queue(levels: seq<PriceLevel>): seq<Maker>
    reads set l | l in levels
  {
    if levels == [] then [] else levels[0].Makers() + Queue(levels[1..])
  }

  ghost predicate Sorted(taker: Side, levels: seq<PriceLevel>) {
    forall i, j :: 0 <= i < j < |levels| ==> Better(taker, levels[i].price, levels[j].price)
  }

  /** Every level counts its queue rightly and none is empty. */
  ghost predicate Stocked(levels: seq<PriceLevel>)
    reads set l | l in levels
  {
    forall i :: 0 <= i < |levels| ==> levels[i].Valid() && levels[i].orders != []
  }

  ghost predicate SideOk(taker: Side, levels: seq<PriceLevel>)
    reads set l | l in levels
  {
    Sorted(taker, levels) && Stocked(levels)
  }

  lemma {:induction false} QueueAppend(a: seq<PriceLevel>, b: seq<PriceLevel>)
    ensures Queue(a + b) == Queue(a) + Queue(b)
  {
    var ab := a + b;
    if a == [] {
      assert ab == b;
    } else {
      assert ab[0] == a[0] && ab[1..] == a[1..] + b;
      QueueAppend(a[1..], b);
      Assoc(a[0].Makers(), Queue(a[1..]), Queue(b));
    }
  }

  lemma {:induction false} QueueOne(l: PriceLevel)
    ensures Queue([l]) == l.Makers()
  {
    assert [l][1..] == [];
  }

  lemma {:induction false} QueueAround(a: seq<PriceLevel>, l: PriceLevel, b: seq<PriceLevel>)
    ensures Queue(a + [l] + b) == Queue(a) + l.Makers() + Queue(b)
  {
    QueueAppend(a + [l], b);
    QueueAppend(a, [l]);
    QueueOne(l);
  }

  lemma {:induction false} QueuePositive(levels: seq<PriceLevel>)
    requires Stocked(levels)
    ensures Positive(Queue(levels))
  {
    if levels != [] {
      QueuePositive(levels[1..]);
      MakersShape(levels[0].price, levels[0].orders);
    }
  }

  /** Every order in the list carries the price of one of the levels. */
  lemma {:induction false} QueuePrices(levels: seq<PriceLevel>)
    ensures forall m :: m in Queue(levels) ==> exists i :: 0 <= i < |levels| && levels[i].price == m.price
  {
    if levels != [] {
      QueuePrices(levels[1..]);
      MakersShape(levels[0].price, levels[0].orders);
      forall m | m in Queue(levels) ensures exists i :: 0 <= i < |levels| && levels[i].price == m.price {
        if m in Queue(levels[1..]) {
          var i :| 0 <= i < |levels[1..]| && levels[1..][i].price == m.price;
          assert levels[i + 1].price == m.price;
        } else {
          assert m in levels[0].Makers();
          assert levels[0].price == m.price;
        }
      }
    }
  }

  /** The list of a sorted side is sorted: best price first. */
  lemma {:induction false} QueuePriority(taker: Side, levels: seq<PriceLevel>)
    requires Sorted(taker, levels)
    ensures Priority(taker, Queue(levels))
  {
    if levels != [] {
      var a, b := levels[0].Makers(), Queue(levels[1..]);
      QueuePriority(taker, levels[1..]);
      QueuePrices(levels[1..]);
      MakersShape(levels[0].price, levels[0].orders);
      forall j | 0 <= j < |b| ensures Better(taker, levels[0].price, b[j].price) {
        assert b[j] in b;
      }
      PriorityJoins(taker, a, b, levels[0].price);
      hide Priority;
    }
  }

  lemma {:induction false} PriorityJoins(taker: Side, a: seq<Maker>, b: seq<Maker>, price: int)
    requires Priority(taker, b) && (forall i :: 0 <= i < |a| ==> a[i].price == price)
    requires forall j :: 0 <= j < |b| ==> Better(taker, price, b[j].price)
    ensures Priority(taker, a + b)
  {
  }

  // ---- finding the level of a price

  ghost predicate IsPlace(taker: Side, levels: seq<PriceLevel>, price: int, i: nat) {
    && i <= |levels|
    && (forall j :: 0 <= j < i ==> Better(taker, levels[j].price, price))
    && (i < |levels| ==> !Better(taker, levels[i].price, price))
  }

  /** Around the place of a price the list splits into better, equal and worse orders. */
  lemma {:induction false} AroundPlace(taker: Side, levels: seq<PriceLevel>, price: int, i: nat)
    requires Sorted(taker, levels) && IsPlace(taker, levels, price, i)
    ensures forall x :: x in Queue(levels[..i]) ==> Better(taker, x.price, price)
    ensures var k := if i < |levels| && levels[i].price == price then i + 1 else i;
            forall x :: x in Queue(levels[k..]) ==> Better(taker, price, x.price)
  {
    QueuePrices(levels[..i]);
    var k := if i < |levels| && levels[i].price == price then i + 1 else i;
    QueuePrices(levels[k..]);
    forall j | k <= j < |levels| ensures Better(taker, price, levels[j].price) {
      if i < j {
        assert Better(taker, levels[i].price, levels[j].price);
      }
    }
  }

  /** Where a new order lands in the list. */
  lemma {:induction false} EnqueueAtLevel(taker: Side, levels: seq<PriceLevel>, i: nat, m: Maker)
    requires Sorted(taker, levels) && IsPlace(taker, levels, m.price, i)
    ensures var q := Enqueue(taker, Queue(levels), m);
            if i < |levels| && levels[i].price == m.price
            then q == Queue(levels[..i]) + (levels[i].Makers() + [m]) + Queue(levels[i + 1..])
            else q == Queue(levels[..i]) + [m] + Queue(levels[i..])
  {
    AroundPlace(taker, levels, m.price, i);
    if i < |levels| && levels[i].price == m.price {
      var a, b, k := levels[..i], levels[i + 1..], levels[i];
      assert levels == a + [k] + b;
      QueueAround(a, k, b);
      MakersShape(m.price, k.orders);
      hide Queue, Enqueue;
      EnqueueBehind(taker, Queue(a) + k.Makers(), Queue(b), m);
      Assoc(Queue(a), k.Makers(), [m]);
    } else {
      var a, b := levels[..i], levels[i..];
      assert levels == a + b;
      hide Queue, Enqueue;
      QueueAppend(a, b);
      EnqueueBehind(taker, Queue(a), Queue(b), m);
    }
  }

  /** A cancellation touches the level of its price only. */
  lemma {:induction false} RemoveAtPlace(taker: Side, levels: seq<PriceLevel>, i: nat, id: string, price: int)
    requires Sorted(taker, levels) && IsPlace(taker, levels, price, i)
    ensures var q := Remove(Queue(levels), id, price);
            if i < |levels| && levels[i].price == price
            then q == Queue(levels[..i]) + Remove(levels[i].Makers(), id, price) + Queue(levels[i + 1..])
            else q == Queue(levels)
  {
    AroundPlace(taker, levels, price, i);
    if i < |levels| && levels[i].price == price {
      var a, b, k := levels[..i], levels[i + 1..], levels[i];
      assert levels == a + [k] + b;
      QueueAround(a, k, b);
      hide Queue, Remove;
      RemoveBefore(Queue(a) + k.Makers(), Queue(b), id, price);
      RemoveBehind(Queue(a), k.Makers(), id, price);
    } else {
      var a, b := levels[..i], levels[i..];
      assert levels == a + b;
      QueueAppend(a, b);
      hide Queue, Remove;
      RemoveNothing(Queue(levels), id, price);
    }
  }

  class OrderBook {
    var bids: seq<PriceLevel>
    var asks: seq<PriceLevel>
    ghost const market: string

    ghost predicate Valid()
      reads this, set l | l in bids, set l | l in asks
    {
      && SideOk(Sell, bids) && SideOk(Buy, asks)
      && (forall l :: l in bids ==> l !in asks && l.market == market)
      && (forall l :: l in asks ==> l.market == market)
    }

    ghost function View(): Book
      reads this, set l | l in bids, set l | l in asks
    {
      Book(Queue(bids), Queue(asks))
    }

    constructor (ghost market: string)
      ensures Valid() && View() == Book([], []) && bids == [] && asks == [] && this.market == market
    {
      bids, asks, this.market := [], [], market;
    }

    static method PlaceOf(taker: Side, levels: seq<PriceLevel>, price: int) returns (i: nat)
      ensures IsPlace(taker, levels, price, i)
    {
      i := 0;
      while i < |levels| && Better(taker, levels[i].price, price)
        invariant i <= |levels| && forall j :: 0 <= j < i ==> Better(taker, levels[j].price, price)
      {
        i := i + 1;
      }
    }

    static method AddToSide(taker: Side, levels: seq<PriceLevel>, price: int, e: OrderEntry, ghost market: string)
      returns (r: seq<PriceLevel>)
      requires SideOk(taker, levels) && e.qty > 0
      modifies levels
      ensures SideOk(taker, r) && forall l :: l in r ==> l in levels || (fresh(l) && l.market == market)
      ensures Queue(r) == Enqueue(taker, old(Queue(levels)), Maker(e.id, e.user, price, e.qty))
    {
      hide Queue, Enqueue, SideOk;
      var i := PlaceOf(taker, levels, price);
      if i < |levels| && levels[i].price == price {
        AddToLevel(taker, levels, i, e);
        r := levels;
      } else {
        r := OpenLevel(taker, levels, i, price, e, market);
      }
    }

    static method AddToLevel(taker: Side, levels: seq<PriceLevel>, i: nat, e: OrderEntry)
      requires SideOk(taker, levels) && e.qty > 0 && i < |levels| && IsPlace(taker, levels, levels[i].price, i)
      modifies levels
      ensures SideOk(taker, levels)
      ensures Queue(levels) == Enqueue(taker, old(Queue(levels)), Maker(e.id, e.user, levels[i].price, e.qty))
    {
      hide Queue, Enqueue, MakersAt, SumQty;
      EnqueueAtLevel(taker, levels, i, Maker(e.id, e.user, levels[i].price, e.qty));
      ghost var a, b := levels[..i], levels[i + 1..];
      levels[i].Add(e);
      assert levels == a + [levels[i]] + b;
      QueueAround(a, levels[i], b);
    }

    static method OpenLevel(taker: Side, levels: seq<PriceLevel>, i: nat, price: int, e: OrderEntry, ghost market: string)
      returns (r: seq<PriceLevel>)
      requires SideOk(taker, levels) && e.qty > 0 && IsPlace(taker, levels, price, i)
      requires i < |levels| ==> levels[i].price != price
      ensures SideOk(taker, r) && forall l :: l in r ==> l in levels || (fresh(l) && l.market == market)
      ensures Queue(r) == Enqueue(taker, old(Queue(levels)), Maker(e.id, e.user, price, e.qty))
    {
      hide Queue, Enqueue, SumQty, Sorted, Stocked;
      EnqueueAtLevel(taker, levels, i, Maker(e.id, e.user, price, e.qty));
      var level := new PriceLevel(price, market);
      level.Add(e);
      assert level.Makers() == [Maker(e.id, e.user, price, e.qty)];
      QueueAround(levels[..i], level, levels[i..]);
      r := levels[..i] + [level] + levels[i..];
      InsertedSorted(taker, levels, i, level);
      InsertedStocked(levels, i, level);
    }

    static lemma {:induction false} InsertedSorted(taker: Side, levels: seq<PriceLevel>, i: nat, level: PriceLevel)
      requires Sorted(taker, levels) && IsPlace(taker, levels, level.price, i)
      requires i < |levels| ==> levels[i].price != level.price
      ensures Sorted(taker, levels[..i] + [level] + levels[i..])
    {
      forall j | i <= j < |levels| ensures Better(taker, level.price, levels[j].price) {
        if i < j {
          assert Better(taker, levels[i].price, levels[j].price);
        }
      }
    }

    static lemma {:induction false} InsertedStocked(levels: seq<PriceLevel>, i: nat, level: PriceLevel)
      requires i <= |levels| && Stocked(levels) && level.Valid() && level.orders != []
      ensures var r := levels[..i] + [level] + levels[i..]; Stocked(r) && forall l :: l in r <==> l in levels || l == level
    {
      assert levels == levels[..i] + levels[i..];
    }

    method Add(order: Order)
      requires Valid() && order.qty > 0
      modifies this, set l | l in bids, set l | l in asks
      ensures Valid() && View() == EngineModel.Add(old(View()), order, order.qty)
      ensures forall l :: l in bids || l in asks ==> l in old(bids) || l in old(asks) || fresh(l)
    {
      hide Queue, Enqueue, SideOk;
      var e := OrderEntry(order.id, order.user, order.qty);
      if order.side == Buy {
        bids := AddToSide(Sell, bids, order.price, e, market);
      } else {
        asks := AddToSide(Buy, asks, order.price, e, market);
      }
    }
  
    // ---- cancelling

    static method CancelOnSide(taker: Side, levels: seq<PriceLevel>, id: string, price: int)
      returns (removed: bool, r: seq<PriceLevel>)
      requires SideOk(taker, levels)
      modifies levels
      ensures SideOk(taker, r) && forall l :: l in r ==> l in levels
      ensures Queue(r) == Remove(old(Queue(levels)), id, price)
      ensures removed <==> |Queue(r)| < |old(Queue(levels))|
    {
      hide Queue, Remove, SideOk, Rests;
      var i := PlaceOf(taker, levels, price);
      assert Sorted(taker, levels) by { SideIsSorted(taker, levels); }
      RemoveAtPlace(taker, levels, i, id, price);
      if i < |levels| && levels[i].price == price {
        removed, r := CancelAtLevel(taker, levels, i, id);
      } else {
        removed, r := false, levels;
      }
    }

    static lemma {:induction false} SideIsSorted(taker: Side, levels: seq<PriceLevel>)
      requires SideOk(taker, levels)
      ensures Sorted(taker, levels)
    {
    }

    /** A side whose level i may have run empty is in order once that level is dropped. */
    static lemma {:induction false} DropEmpty(taker: Side, levels: seq<PriceLevel>, i: nat)
      requires Sorted(taker, levels) && i < |levels|
      requires forall j :: 0 <= j < |levels| ==> levels[j].Valid() && (j != i ==> levels[j].orders != [])
      ensures levels[i].orders != [] ==> SideOk(taker, levels)
      ensures levels[i].orders == [] ==> SideOk(taker, levels[..i] + levels[i + 1..])
    {
      if levels[i].orders == [] {
        var r := levels[..i] + levels[i + 1..];
        assert forall j :: 0 <= j < |r| ==> r[j] == if j < i then levels[j] else levels[j + 1];
      }
    }

    static lemma {:induction false} DropFromQueue(levels: seq<PriceLevel>, i: nat)
      requires i < |levels| && levels[i].orders == []
      ensures Queue(levels[..i] + levels[i + 1..]) == Queue(levels)
    {
      var a, b := levels[..i], levels[i + 1..];
      assert levels == a + [levels[i]] + b;
      QueueAround(a, levels[i], b);
      QueueAppend(a, b);
      hide Queue;
      assert Queue(a) + [] == Queue(a);
    }

    static lemma {:induction false} OrdersAndMakers(orders: seq<OrderEntry>, id: string, price: int)
      ensures Rests(MakersAt(price, orders), id, price) <==> exists i :: 0 <= i < |orders| && orders[i].id == id
    {
      MakersShape(price, orders);
      if i :| 0 <= i < |orders| && orders[i].id == id {
        assert MakersAt(price, orders)[i].id == id;
      }
    }

    static method CancelAtLevel(taker: Side, levels: seq<PriceLevel>, i: nat, id: string)
      returns (removed: bool, r: seq<PriceLevel>)
      requires SideOk(taker, levels) && i < |levels|
      modifies levels
      ensures SideOk(taker, r) && forall l :: l in r ==> l in levels
      ensures Queue(r) == old(Queue(levels[..i]) + Remove(levels[i].Makers(), id, levels[i].price) + Queue(levels[i + 1..]))
      ensures removed <==> |Queue(r)| < |old(Queue(levels))|
    {
      ghost var a, b, was := levels[..i], levels[i + 1..], levels[i].Makers();
      assert levels == a + [levels[i]] + b;
      QueueAround(a, levels[i], b);
      RestsIn(was, id, levels[i].price);
      OrdersAndMakers(levels[i].orders, id, levels[i].price);
      removed := levels[i].CancelOrder(id);
      QueueAround(a, levels[i], b);
      hide Queue, Remove, Rests;
      DropEmpty(taker, levels, i);
      hide SideOk;
      r := levels;
      if levels[i].orders == [] {
        DropFromQueue(levels, i);
        r := levels[..i] + levels[i + 1..];
      }
    }

    method Cancel(id: string, side: Side, price: int) returns (removed: bool)
      requires Valid()
      modifies this, set l | l in bids, set l | l in asks
      ensures Valid() && View() == EngineModel.Cancel(old(View()), id, side, price)
      ensures Withdraws(old(View()), View(), id, side, price)
      ensures removed <==> |Facing(View(), Opposite(side))| < |Facing(old(View()), Opposite(side))|
      ensures forall l :: l in bids || l in asks ==> l in old(bids) || l in old(asks)
    {
      hide Queue, Remove, SideOk, Leaves;
      CancelWithdraws(View(), id, side, price);
      if side == Buy {
        removed, bids := CancelOnSide(Sell, bids, id, price);
      } else {
        removed, asks := CancelOnSide(Buy, asks, id, price);
      }
    }

    // ---- matching

    method WouldMatch(order: Order) returns (r: bool)
      requires Valid()
      ensures r <==> EngineModel.WouldMatch(View(), order)
    {
      if order.side == Buy {
        r := asks != [] && order.price >= asks[0].price;
        BestPrice(asks);
      } else {
        r := bids != [] && order.price <= bids[0].price;
        BestPrice(bids);
      }
    }

    static lemma {:induction false} BestPrice(levels: seq<PriceLevel>)
      requires Stocked(levels)
      ensures levels == [] <==> Queue(levels) == []
      ensures levels != [] ==> Queue(levels)[0].price == levels[0].price
    {
      if levels != [] {
        MakersShape(levels[0].price, levels[0].orders);
      }
    }

    /** Takes from one level: the rest of the fill goes on behind it. */
    static method MatchAt(taker: Side, levels: seq<PriceLevel>, i: nat, limit: Limit, qty: int)
      returns (left: int, ms: seq<MatchResult>)
      requires i < |levels| && levels[i] !in levels[..i] && levels[i] !in levels[i + 1..]
      requires levels[i].Valid() && qty >= 0 && Crosses(taker, limit, levels[i].price)
      modifies levels[i]
      ensures levels[i].Valid() && left >= 0 && (left > 0 ==> levels[i].orders == [])
      ensures ms + Fills(taker, limit, Queue(levels[i + 1..]), left) == Fills(taker, limit, old(Queue(levels[i..])), qty)
      ensures Queue(levels[..i + 1]) + Rest(taker, limit, Queue(levels[i + 1..]), left)
           == old(Queue(levels[..i])) + Rest(taker, limit, old(Queue(levels[i..])), qty)
    {
      hide Queue, Fills, Rest, FilledQty, Better, Crosses;
      ghost var a, k, b := levels[..i], levels[i], levels[i + 1..];
      assert levels[i..] == [k] + b && levels[..i + 1] == a + [k];
      MatchStep(taker, limit, k, b, qty);
      left, ms := levels[i].MatchAgainst(taker, limit, qty);
      QueueOne(k);
      QueueAppend(a, [k]);
      Assoc(Queue(a), k.Makers(), Rest(taker, limit, Queue(b), left));
    }

    /** Takes from the levels in order while they cross; exhausted lists the prices that ran empty. */
    static method MatchLevels(taker: Side, levels: seq<PriceLevel>, limit: Limit, qty: int)
      returns (matches: seq<MatchResult>, exhausted: seq<int>)
      requires SideOk(taker, levels) && qty >= 0
      modifies levels
      ensures matches == Fills(taker, limit, old(Queue(levels)), qty)
      ensures Queue(levels) == Rest(taker, limit, old(Queue(levels)), qty)
      ensures |exhausted| <= |levels| && Stocked(levels[|exhausted|..])
      ensures forall i :: 0 <= i < |exhausted| ==> exhausted[i] == levels[i].price && levels[i].orders == []
    {
      hide Queue, Fills, Rest, Sorted, MakersAt, SumQty, FilledQty, Crosses;
      matches, exhausted := [], [];
      var remaining, i := qty, 0;
      assert levels[..0] == [] && levels[0..] == levels;
      NoLevels();
      while i < |levels| && remaining != 0 && Crosses(taker, limit, levels[i].price)
        invariant |exhausted| <= i <= |levels| && remaining >= 0 && (|exhausted| < i ==> remaining == 0)
        invariant forall j :: |exhausted| <= j < |levels| ==> levels[j].Valid() && levels[j].orders != []
        invariant forall j :: 0 <= j < |exhausted| ==> exhausted[j] == levels[j].price && levels[j].orders == []
        invariant matches + Fills(taker, limit, Queue(levels[i..]), remaining) == Fills(taker, limit, old(Queue(levels)), qty)
        invariant Queue(levels[..i]) + Rest(taker, limit, Queue(levels[i..]), remaining) == Rest(taker, limit, old(Queue(levels)), qty)
      {
        ghost var before := matches;
        Apart(taker, levels, i);
        var left, ms := MatchAt(taker, levels, i, limit, remaining);
        Assoc(before, ms, Fills(taker, limit, Queue(levels[i + 1..]), left));
        matches, remaining := matches + ms, left;
        if levels[i].orders == [] {
          exhausted := exhausted + [levels[i].price];
        }
        i := i + 1;
      }
      Stopped(taker, levels, i, limit, remaining);
      assert matches + [] == matches;
    }

    static lemma {:induction false} Apart(taker: Side, levels: seq<PriceLevel>, i: nat)
      requires Sorted(taker, levels) && i < |levels|
      ensures levels[i] !in levels[..i] && levels[i] !in levels[i + 1..]
      ensures forall j :: 0 <= j < |levels| && j != i ==> levels[j] != levels[i]
    {
    }

    static lemma {:induction false} NoLevels()
      ensures Queue([]) == []
    {
    }

    /** Once the loop stops nothing behind is touched. */
    static lemma {:induction false} Stopped(taker: Side, levels: seq<PriceLevel>, i: nat, limit: Limit, qty: int)
      requires i <= |levels| && qty >= 0
      requires i == |levels| || qty == 0 || !Crosses(taker, limit, levels[i].price)
      requires i < |levels| ==> qty == 0 || levels[i].orders != []
      ensures Fills(taker, limit, Queue(levels[i..]), qty) == []
      ensures Queue(levels[..i]) + Rest(taker, limit, Queue(levels[i..]), qty) == Queue(levels)
    {
      var b := levels[i..];
      assert levels == levels[..i] + b;
      QueueAppend(levels[..i], b);
      if b != [] && levels[i].orders != [] {
        MakersShape(b[0].price, b[0].orders);
      }
      assert Stops(taker, limit, Queue(b), qty);
    }

    /** Drops the level of a price from the map, if there is one. */
    static method RemovePrice(taker: Side, levels: seq<PriceLevel>, price: int) returns (r: seq<PriceLevel>)
      requires Sorted(taker, levels) && levels != [] && levels[0].price == price
      ensures r == levels[1..]
    {
      var i := PlaceOf(taker, levels, price);
      r := if i < |levels| && levels[i].price == price then levels[..i] + levels[i + 1..] else levels;
    }

    /** Drops the levels of the exhausted prices, which lead the map. */
    static method RemovePrices(taker: Side, levels: seq<PriceLevel>, prices: seq<int>) returns (r: seq<PriceLevel>)
      requires Sorted(taker, levels) && |prices| <= |levels|
      requires forall i :: 0 <= i < |prices| ==> prices[i] == levels[i].price
      ensures r == levels[|prices|..] && Sorted(taker, r)
    {
      r := levels;
      for i := 0 to |prices|
        invariant r == levels[i..]
      {
        r := RemovePrice(taker, r, prices[i]);
      }
    }

    static method MatchSide(taker: Side, levels: seq<PriceLevel>, limit: Limit, qty: int)
      returns (matches: seq<MatchResult>, r: seq<PriceLevel>)
      requires SideOk(taker, levels) && qty >= 0
      modifies levels
      ensures matches == Fills(taker, limit, old(Queue(levels)), qty)
      ensures Queue(r) == Rest(taker, limit, old(Queue(levels)), qty)
      ensures SideOk(taker, r) && forall l :: l in r ==> l in levels
    {
      hide Queue, Fills, Rest, Stocked, Sorted;
      var exhausted;
      matches, exhausted := MatchLevels(taker, levels, limit, qty);
      r := RemovePrices(taker, levels, exhausted);
      EmptyInFront(levels, |exhausted|);
    }

    static lemma {:induction false} EmptyInFront(levels: seq<PriceLevel>, n: nat)
      requires n <= |levels| && forall i :: 0 <= i < n ==> levels[i].orders == []
      ensures Queue(levels) == Queue(levels[n..])
    {
      if n > 0 {
        EmptyInFront(levels[1..], n - 1);
        assert levels[1..][n - 1..] == levels[n..];
        assert levels[0].Makers() == [];
        assert Queue(levels) == [] + Queue(levels[1..]);
      }
    }

    /** Fills the order from the other side, best price first and oldest first, and drops the levels it empties. */
    method MatchOrder(order: Order) returns (matches: seq<MatchResult>)
      requires Valid() && order.qty > 0
      modifies this, set l | l in bids, set l | l in asks
      ensures Valid() && View() == AfterTrades(old(View()), order) && matches == Trades(old(View()), order)
      ensures forall l :: l in bids || l in asks ==> l in old(bids) || l in old(asks)
    {
      hide Queue, Fills, Rest, SideOk;
      if order.side == Buy {
        matches, asks := MatchSide(Buy, asks, LimitOf(order), order.qty);
      } else {
        matches, bids := MatchSide(Sell, bids, LimitOf(order), order.qty);
      }
    }

    static lemma {:induction false} MatchStep(taker: Side, limit: Limit, k: PriceLevel, b: seq<PriceLevel>, qty: int)
      requires k.Valid() && qty >= 0 && Crosses(taker, limit, k.price)
      ensures var q := k.Makers(); var left := qty - FilledQty(Fills(taker, limit, q, qty));
              && Fills(taker, limit, Queue([k] + b), qty) == Fills(taker, limit, q, qty) + Fills(taker, limit, Queue(b), left)
              && Rest(taker, limit, Queue([k] + b), qty) == Rest(taker, limit, q, qty) + Rest(taker, limit, Queue(b), left)
    {
      QueueOne(k);
      QueueAppend([k], b);
      MakersShape(k.price, k.orders);
      assert AllCross(taker, limit, k.Makers());
      hide AllCross, Queue, Fills, FilledQty, Rest, Crosses;
      FillsAppend(taker, limit, k.Makers(), Queue(b), qty);
      RestAppend(taker, limit, k.Makers(), Queue(b), qty);
    }

    // ---- reading

    /** The running totals of the first levels. */
    method Depth(n: nat) returns (bidLevels: seq<Level>, askLevels: seq<Level>)
      requires Valid()
      ensures bidLevels == Take(DepthOf(View().bids), n) && askLevels == Take(DepthOf(View().asks), n)
    {
      hide SideOk, Queue, DepthOf;
      bidLevels := FirstLevels(Sell, bids, n);
      askLevels := FirstLevels(Buy, asks, n);
    }

    static method FirstLevels(taker: Side, levels: seq<PriceLevel>, n: nat) returns (r: seq<Level>)
      requires SideOk(taker, levels)
      ensures r == Take(DepthOf(Queue(levels)), n)
    {
      r := [];
      var m := if n <= |levels| then n else |levels|;
      for i := 0 to m
        invariant |r| == i && forall j :: 0 <= j < i ==> r[j] == Level(levels[j].price, levels[j].totalQty)
      {
        r := r + [Level(levels[i].price, levels[i].totalQty)];
      }
      LevelsAreDepth(taker, levels);
    }

    /** The depth of a side is its levels with their running totals. */
    static lemma {:induction false} LevelsAreDepth(taker: Side, levels: seq<PriceLevel>)
      requires SideOk(taker, levels)
      ensures var d := DepthOf(Queue(levels));
              |d| == |levels| && forall i :: 0 <= i < |d| ==> d[i] == Level(levels[i].price, levels[i].totalQty)
    {
      if levels != [] {
        TailOk(taker, levels);
        LevelsAreDepth(taker, levels[1..]);
        BestPrice(levels[1..]);
        assert |levels| > 1 ==> levels[1..][0].price != levels[0].price;
        LevelInFront(levels[0].price, levels[0].orders, Queue(levels[1..]));
        var d := DepthOf(Queue(levels));
        assert forall i :: 0 < i < |d| ==> d[i] == DepthOf(Queue(levels[1..]))[i - 1];
      }
    }

    static lemma {:induction false} TailOk(taker: Side, levels: seq<PriceLevel>)
      requires SideOk(taker, levels) && levels != []
      ensures SideOk(taker, levels[1..]) && (|levels| > 1 ==> levels[1].price != levels[0].price)
    {
    }

    static lemma {:induction false} LevelInFront(price: int, orders: seq<OrderEntry>, q: seq<Maker>)
      requires orders != [] && (q != [] ==> q[0].price != price)
      ensures DepthOf(MakersAt(price, orders) + q) == [Level(price, SumQty(orders))] + DepthOf(q)
    {
      var first := MakersAt(price, orders)[0];
      var all := MakersAt(price, orders) + q;
      assert all[0] == first && all[1..] == MakersAt(price, orders[1..]) + q;
      DepthOfHead(q);
      if |orders| == 1 {
        assert all[1..] == q;
      } else {
        LevelInFront(price, orders[1..], q);
      }
    }

    /** In a sound book both lists are sorted and every order in them still wants something. */
    lemma {:induction false} ViewIsSorted()
      requires Valid()
      ensures Priority(Sell, View().bids) && Priority(Buy, View().asks) && Positive(View().bids) && Positive(View().asks)
    {
      QueuePriority(Sell, bids);
      QueuePriority(Buy, asks);
      QueuePositive(bids);
      QueuePositive(asks);
      hide Priority, Positive;
    }

    method BestBid() returns (r: Option<int>)
      requires Valid()
      ensures r == if View().bids == [] then None else Some(View().bids[0].price)
    {
      BestPrice(bids);
      r := if bids == [] then None else Some(bids[0].price);
    }

    method BestAsk() returns (r: Option<int>)
      requires Valid()
      ensures r == if View().asks == [] then None else Some(View().asks[0].price)
    {
      BestPrice(asks);
      r := if asks == [] then None else Some(asks[0].price);
    }
  }
}
