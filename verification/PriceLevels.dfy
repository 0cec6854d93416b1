/** The price levels of the second engine: queues in a map ordered by price. */
module PriceLevels {
  import opened SortedEntries
  import opened ReferenceBook

  datatype OrderEntry = OrderEntry(id: string, user: string, qty: int)

  ghost function MakersAt(price: int, orders: seq<OrderEntry>): seq<Maker> {
    if orders == [] then []
    else [Maker(orders[0].id, orders[0].user, price, orders[0].qty)] + MakersAt(price, orders[1..])
  }

  ghost function SumQty(orders: seq<OrderEntry>): int {
    if orders == [] then 0 else orders[0].qty + SumQty(orders[1..])
  }

  lemma {:induction false} AppendOrder(price: int, orders: seq<OrderEntry>, e: OrderEntry)
    ensures MakersAt(price, orders + [e]) == MakersAt(price, orders) + [Maker(e.id, e.user, price, e.qty)]
    ensures SumQty(orders + [e]) == SumQty(orders) + e.qty
  {
    if orders == [] {
      assert orders + [e] == [e];
    } else {
      AppendOrder(price, orders[1..], e);
      assert (orders + [e])[1..] == orders[1..] + [e];
    }
  }

  lemma {:induction false} MakersShape(price: int, orders: seq<OrderEntry>)
    ensures var ms := MakersAt(price, orders);
            |ms| == |orders| && forall i :: 0 <= i < |ms| ==> ms[i] == Maker(orders[i].id, orders[i].user, price, orders[i].qty)
  {
    if orders != [] {
      MakersShape(price, orders[1..]);
    }
  }

  /** Index of the first order with this id, or the length. */
  ghost function Position(orders: seq<OrderEntry>, id: string): (i: nat)
    ensures i <= |orders| && (i < |orders| ==> orders[i].id == id) && forall j :: 0 <= j < i ==> orders[j].id != id
  {
    if orders == [] || orders[0].id == id then 0 else 1 + Position(orders[1..], id)
  }

  ghost function Cancelled(orders: seq<OrderEntry>, id: string): seq<OrderEntry> {
    if orders == [] then []
    else if orders[0].id == id then orders[1..]
    else [orders[0]] + Cancelled(orders[1..], id)
  }

  lemma {:induction false} RemoveAtLevel(price: int, orders: seq<OrderEntry>, id: string)
    ensures var c := Cancelled(orders, id); var i := Position(orders, id);
            && Remove(MakersAt(price, orders), id, price) == MakersAt(price, c)
            && SumQty(c) == SumQty(orders) - if i < |orders| then orders[i].qty else 0
  {
    hide MakersAt, SumQty, Remove;
    if orders == [] {
      RemoveFromNone(price, id);
    } else {
      var e, tail := orders[0], orders[1..];
      assert orders == [e] + tail;
      RemoveFromFirst(price, e, tail, id);
      if e.id != id {
        RemoveAtLevel(price, tail, id);
        RemoveFromFirst(price, e, Cancelled(tail, id), id);
      }
    }
  }

  lemma {:induction false} CancelledIs(orders: seq<OrderEntry>, id: string)
    ensures var i := Position(orders, id);
            Cancelled(orders, id) == if i < |orders| then orders[..i] + orders[i + 1..] else orders
  {
    if orders != [] && orders[0].id != id {
      var i, tail := Position(orders, id), orders[1..];
      CancelledIs(tail, id);
      if i < |orders| {
        FirstAndLater(orders, i);
      } else {
        assert orders == [orders[0]] + tail;
      }
    }
  }

  lemma {:induction false} FirstAndLater(orders: seq<OrderEntry>, i: nat)
    requires 0 < i < |orders|
    ensures orders[..i] + orders[i + 1..] == [orders[0]] + (orders[1..][..i - 1] + orders[1..][i..])
  {
    var a, b := orders[1..][..i - 1], orders[1..][i..];
    assert orders[..i] == [orders[0]] + a && orders[i + 1..] == b;
    Assoc([orders[0]], a, b);
  }

  lemma {:induction false} RemoveFromNone(price: int, id: string)
    ensures MakersAt(price, []) == [] && Remove([], id, price) == []
  {
  }

  lemma {:induction false} RemoveFromFirst(price: int, e: OrderEntry, tail: seq<OrderEntry>, id: string)
    ensures var m := Maker(e.id, e.user, price, e.qty); var ms := MakersAt(price, [e] + tail); var rest := MakersAt(price, tail);
            && ms == [m] + rest && SumQty([e] + tail) == e.qty + SumQty(tail)
            && Remove(ms, id, price) == if e.id == id then rest else [m] + Remove(rest, id, price)
  {
    assert ([e] + tail)[1..] == tail;
    assert MakersAt(price, [e] + tail)[1..] == MakersAt(price, tail);
  }

  class PriceLevel {
    const price: int
    /** The market whose book owns this level. */
    ghost const market: string
    var orders: seq<OrderEntry>
    var totalQty: int

    /** The running total is the sum over the queue, and every queued quantity is positive. */
    ghost predicate Valid()
      reads this
    {
      totalQty == SumQty(orders) && forall i :: 0 <= i < |orders| ==> orders[i].qty > 0
    }

    ghost function Makers(): seq<Maker>
      reads this
    {
      MakersAt(price, orders)
    }

    constructor (price: int, ghost market: string)
      ensures this.price == price && this.market == market && Valid() && orders == []
    {
      this.price, this.market, orders, totalQty := price, market, [], 0;
    }

    method Add(entry: OrderEntry)
      requires Valid() && entry.qty > 0
      modifies this
      ensures Valid() && orders != []
      ensures Makers() == old(Makers()) + [Maker(entry.id, entry.user, price, entry.qty)]
    {
      AppendOrder(price, orders, entry);
      totalQty := totalQty + entry.qty;
      orders := orders + [entry];
    }

    method RemoveFront()
      requires Valid() && orders != []
      modifies this
      ensures Valid() && orders == old(orders)[1..]
    {
      totalQty := totalQty - orders[0].qty;
      orders := orders[1..];
    }

    method ReduceFront(qty: int)
      requires Valid() && orders != [] && 0 < qty < orders[0].qty
      modifies this
      ensures Valid() && orders == [old(orders)[0].(qty := old(orders)[0].qty - qty)] + old(orders)[1..]
    {
      ghost var rest := orders[1..];
      orders := [orders[0].(qty := orders[0].qty - qty)] + orders[1..];
      totalQty := totalQty - qty;
      assert orders[1..] == rest;
    }

    method CancelOrder(id: string) returns (removed: bool)
      requires Valid()
      modifies this
      ensures Valid() && Makers() == Remove(old(Makers()), id, price)
      ensures removed <==> exists i :: 0 <= i < |old(orders)| && old(orders)[i].id == id
      ensures !removed ==> orders == old(orders)
    {
      var pos := 0;
      while pos < |orders| && orders[pos].id != id
        invariant pos <= |orders| && forall j :: 0 <= j < pos ==> orders[j].id != id
      {
        pos := pos + 1;
      }
      assert pos == Position(orders, id);
      RemoveAtLevel(price, orders, id);
      CancelledIs(orders, id);
      removed := pos < |orders|;
      if removed {
        totalQty := totalQty - orders[pos].qty;
        orders := orders[..pos] + orders[pos + 1..];
      }
    }

    /** Fills the taker from the front of the queue. */
    method MatchAgainst(taker: Side, ghost limit: Limit, remaining0: int) returns (remaining: int, matches: seq<MatchResult>)
      requires Valid() && remaining0 >= 0 && Crosses(taker, limit, price)
      modifies this
      ensures Valid()
      ensures matches == Fills(taker, limit, old(Makers()), remaining0)
      ensures Makers() == Rest(taker, limit, old(Makers()), remaining0)
      ensures remaining == remaining0 - FilledQty(matches) && remaining >= 0
      ensures remaining > 0 ==> orders == []
    {
      hide Fills, Rest, FilledQty, MakersAt, Crosses;
      remaining, matches := remaining0, [];
      NothingFilled(taker, limit, Makers(), remaining0);
      while remaining != 0 && orders != []
        invariant Valid() && remaining >= 0
        invariant matches + Fills(taker, limit, Makers(), remaining) == Fills(taker, limit, old(Makers()), remaining0)
        invariant Rest(taker, limit, Makers(), remaining) == Rest(taker, limit, old(Makers()), remaining0)
        invariant remaining == remaining0 - FilledQty(matches)
        decreases |orders|, remaining
      {
        var front := orders[0];
        var fill := if remaining <= front.qty then remaining else front.qty;
        ghost var rest := orders[1..];
        FillFront(taker, limit, price, orders, remaining, matches);
        FilledAppend(matches, MatchResult(front.id, front.user, price, fill, front.qty));
        matches := matches + [MatchResult(front.id, front.user, price, fill, front.qty)];
        if fill >= front.qty {
          RemoveFront();
        } else {
          ReduceFront(fill);
        }
        remaining := remaining - fill;
      }
      NoneLeft(taker, limit, price, orders, remaining);
    }
  }

  lemma {:induction false} NothingFilled(taker: Side, limit: Limit, q: seq<Maker>, qty: int)
    ensures FilledQty([]) == 0 && [] + Fills(taker, limit, q, qty) == Fills(taker, limit, q, qty)
  {
  }

  lemma {:induction false} NoneLeft(taker: Side, limit: Limit, price: int, orders: seq<OrderEntry>, qty: int)
    requires qty == 0 || orders == []
    ensures var q := MakersAt(price, orders);
            Fills(taker, limit, q, qty) == [] && Rest(taker, limit, q, qty) == q && forall ms: seq<MatchResult> :: ms + [] == ms
  {
  }

  /** One turn of the loop: what the front order gives, and what is left to match. */
  lemma {:induction false} FillFront(taker: Side, limit: Limit, price: int, orders: seq<OrderEntry>, qty: int, ms: seq<MatchResult>)
    requires orders != [] && orders[0].qty > 0 && qty > 0 && Crosses(taker, limit, price)
    ensures var e, q := orders[0], MakersAt(price, orders);
            var f := if qty <= e.qty then qty else e.qty;
            var orders' := if f >= e.qty then orders[1..] else [e.(qty := e.qty - f)] + orders[1..];
            var q' := MakersAt(price, orders');
            && ms + [MatchResult(e.id, e.user, price, f, e.qty)] + Fills(taker, limit, q', qty - f) == ms + Fills(taker, limit, q, qty)
            && Rest(taker, limit, q', qty - f) == Rest(taker, limit, q, qty)
  {
    hide Fills, Rest, FilledQty, MakersAt;
    var e, q, tail := orders[0], MakersAt(price, orders), MakersAt(price, orders[1..]);
    var f := if qty <= e.qty then qty else e.qty;
    FirstMaker(price, orders);
    FillsUnfold(taker, limit, q, qty);
    RestUnfold(taker, limit, q, qty);
    if f < e.qty {
      var less := [e.(qty := e.qty - f)] + orders[1..];
      assert less[1..] == orders[1..];
      FirstMaker(price, less);
      ServedTaker(taker, limit, MakersAt(price, less));
      ServedTaker(taker, limit, tail);
    }
    Assoc(ms, [FillOf(q[0], f)], Fills(taker, limit, tail, qty - f));
  }

  lemma {:induction false} FirstMaker(price: int, orders: seq<OrderEntry>)
    requires orders != []
    ensures var e := orders[0]; MakersAt(price, orders) == [Maker(e.id, e.user, price, e.qty)] + MakersAt(price, orders[1..])
    ensures MakersAt(price, orders)[1..] == MakersAt(price, orders[1..])
  {
    assert MakersAt(price, orders)[1..] == MakersAt(price, orders[1..]);
  }

  lemma {:induction false} RestUnfold(taker: Side, limit: Limit, q: seq<Maker>, qty: int)
    requires !Stops(taker, limit, q, qty)
    ensures Rest(taker, limit, q, qty)
         == if q[0].qty <= qty then Rest(taker, limit, q[1..], qty - q[0].qty) else [q[0].(qty := q[0].qty - qty)] + q[1..]
  {
  }

  lemma {:induction false} ServedTaker(taker: Side, limit: Limit, q: seq<Maker>)
    ensures Fills(taker, limit, q, 0) == [] && Rest(taker, limit, q, 0) == q
  {
  }

}
