/** How resting, removing and filling act on a stretch of a priority list. */
module PriorityLists {
  import opened SortedEntries
  import opened ReferenceBook

  lemma {:induction false} EnqueueBehind(taker: Side, a: seq<Maker>, b: seq<Maker>, m: Maker)
    requires forall x :: x in a ==> !Better(taker, m.price, x.price)
    requires b == [] || Better(taker, m.price, b[0].price)
    ensures Enqueue(taker, a + b, m) == a + [m] + b
  {
    if a == [] {
      assert a + b == b && a + [m] + b == [m] + b;
    } else {
      assert a[0] in a;
      var ab := a + b;
      assert ab[0] == a[0] && ab[1..] == a[1..] + b;
      EnqueueBehind(taker, a[1..], b, m);
      Assoc([a[0]], a[1..] + [m], b);
      Assoc([a[0]], a[1..], [m]);
    }
  }

  lemma {:induction false} RemoveBehind(a: seq<Maker>, b: seq<Maker>, id: string, price: int)
    requires forall x :: x in a ==> x.price != price
    ensures Remove(a + b, id, price) == a + Remove(b, id, price)
  {
    if a == [] {
      assert a + b == b;
    } else {
      assert a[0] in a;
      var ab := a + b;
      assert ab[0] == a[0] && ab[1..] == a[1..] + b;
      RemoveBehind(a[1..], b, id, price);
      Assoc([a[0]], a[1..], Remove(b, id, price));
    }
  }

  lemma {:induction false} RemoveBefore(a: seq<Maker>, b: seq<Maker>, id: string, price: int)
    requires forall x :: x in b ==> x.price != price
    ensures Remove(a + b, id, price) == Remove(a, id, price) + b
  {
    if a == [] {
      assert a + b == b;
      RemoveNothing(b, id, price);
    } else {
      var ab := a + b;
      assert ab[0] == a[0] && ab[1..] == a[1..] + b;
      RemoveBefore(a[1..], b, id, price);
      Assoc([a[0]], Remove(a[1..], id, price), b);
    }
  }

  lemma {:induction false} RemoveNothing(b: seq<Maker>, id: string, price: int)
    requires forall x :: x in b ==> x.price != price
    ensures Remove(b, id, price) == b
  {
    if b != [] {
      assert b[0] in b;
      RemoveNothing(b[1..], id, price);
    }
  }

  ghost predicate AllCross(taker: Side, limit: Limit, q: seq<Maker>) {
    Positive(q) && forall i :: 0 <= i < |q| ==> Crosses(taker, limit, q[i].price)
  }

  /** A fill of two stretches is a fill of the first and then of the second with what is left. */
  lemma {:induction false} FillsAppend(taker: Side, limit: Limit, a: seq<Maker>, b: seq<Maker>, qty: int)
    requires AllCross(taker, limit, a) && qty >= 0
    ensures var ms := Fills(taker, limit, a, qty); var left := qty - FilledQty(ms);
            left >= 0 && Fills(taker, limit, a + b, qty) == ms + Fills(taker, limit, b, left)
  {
    hide Fills, FilledQty, Crosses;
    if a == [] || qty == 0 {
      FillsAppendStops(taker, limit, a, b, qty);
    } else {
      FillsAppendStep(taker, limit, a, b, qty);
      var tail := Fills(taker, limit, a[1..], qty - MinQty(qty, a[0].qty));
      FillsAppend(taker, limit, a[1..], b, qty - MinQty(qty, a[0].qty));
      Assoc([FillOf(a[0], MinQty(qty, a[0].qty))], tail, Fills(taker, limit, b, qty - MinQty(qty, a[0].qty) - FilledQty(tail)));
    }
  }

  lemma {:induction false} FillsAppendStops(taker: Side, limit: Limit, a: seq<Maker>, b: seq<Maker>, qty: int)
    requires a == [] || qty == 0
    ensures var ms := Fills(taker, limit, a, qty); var left := qty - FilledQty(ms);
            left == qty && Fills(taker, limit, a + b, qty) == ms + Fills(taker, limit, b, left)
  {
    assert a == [] ==> a + b == b;
    assert [] + Fills(taker, limit, b, qty) == Fills(taker, limit, b, qty);
  }

  lemma {:induction false} FillsAppendStep(taker: Side, limit: Limit, a: seq<Maker>, b: seq<Maker>, qty: int)
    requires AllCross(taker, limit, a) && qty > 0 && a != []
    ensures AllCross(taker, limit, a[1..])
    ensures var f := MinQty(qty, a[0].qty); var tail := Fills(taker, limit, a[1..], qty - f);
            && f <= qty
            && Fills(taker, limit, a, qty) == [FillOf(a[0], f)] + tail
            && FilledQty(Fills(taker, limit, a, qty)) == f + FilledQty(tail)
            && Fills(taker, limit, a + b, qty) == [FillOf(a[0], f)] + Fills(taker, limit, a[1..] + b, qty - f)
  {
    var ab := a + b;
    assert ab[0] == a[0] && ab[1..] == a[1..] + b;
    FillsUnfold(taker, limit, a, qty);
    FillsUnfold(taker, limit, ab, qty);
    hide Fills, FilledQty;
  }

  lemma {:induction false} RestAppend(taker: Side, limit: Limit, a: seq<Maker>, b: seq<Maker>, qty: int)
    requires AllCross(taker, limit, a) && qty >= 0
    ensures var left := qty - FilledQty(Fills(taker, limit, a, qty));
            Rest(taker, limit, a + b, qty) == Rest(taker, limit, a, qty) + Rest(taker, limit, b, left)
  {
    hide Fills, FilledQty, Rest, Crosses;
    if a == [] || qty == 0 {
      RestAppendStops(taker, limit, a, b, qty);
    } else {
      FillsAppendStep(taker, limit, a, b, qty);
      RestAppendStep(taker, limit, a, b, qty);
      if qty < a[0].qty {
        NoFills(taker, limit, a[1..]);
      } else {
        RestAppend(taker, limit, a[1..], b, qty - a[0].qty);
      }
    }
  }

  lemma {:induction false} RestAppendStops(taker: Side, limit: Limit, a: seq<Maker>, b: seq<Maker>, qty: int)
    requires a == [] || qty == 0
    ensures var left := qty - FilledQty(Fills(taker, limit, a, qty));
            Rest(taker, limit, a + b, qty) == Rest(taker, limit, a, qty) + Rest(taker, limit, b, left)
  {
    assert a == [] ==> a + b == b;
  }

  lemma {:induction false} RestAppendStep(taker: Side, limit: Limit, a: seq<Maker>, b: seq<Maker>, qty: int)
    requires AllCross(taker, limit, a) && qty > 0 && a != []
    ensures qty < a[0].qty ==> Rest(taker, limit, a + b, qty) == Rest(taker, limit, a, qty) + b && Rest(taker, limit, b, 0) == b
    ensures qty >= a[0].qty ==>
              && Rest(taker, limit, a, qty) == Rest(taker, limit, a[1..], qty - a[0].qty)
              && Rest(taker, limit, a + b, qty) == Rest(taker, limit, a[1..] + b, qty - a[0].qty)
  {
    var ab := a + b;
    assert ab[0] == a[0] && ab[1..] == a[1..] + b;
    Assoc([a[0].(qty := a[0].qty - qty)], a[1..], b);
  }

  lemma {:induction false} NoFills(taker: Side, limit: Limit, q: seq<Maker>)
    ensures FilledQty(Fills(taker, limit, q, 0)) == 0
  {
  }

  lemma {:induction false} RestsIn(a: seq<Maker>, id: string, price: int)
    ensures Remove(a, id, price) == a <==> !Rests(a, id, price)
    ensures |Remove(a, id, price)| == |a| - if Rests(a, id, price) then 1 else 0
  {
    if a != [] {
      RestsIn(a[1..], id, price);
      if Rests(a[1..], id, price) {
        var i :| 0 <= i < |a[1..]| && a[1..][i].id == id && a[1..][i].price == price;
        assert a[i + 1].id == id;
      }
      if Rests(a, id, price) && !(a[0].id == id && a[0].price == price) {
        var i :| 0 <= i < |a| && a[i].id == id && a[i].price == price;
        assert a[1..][i - 1].id == id;
      }
    }
  }

  // ---- applying fills one at a time

  /** fs takes from the front of q, every order but the last one entirely. */
  ghost predicate FromFront(q: seq<Maker>, fs: seq<MatchResult>) {
    fs == [] || (&& q != [] && fs[0] == FillOf(q[0], fs[0].quantity) && 0 < fs[0].quantity <= q[0].qty
                 && (|fs| > 1 ==> fs[0].quantity == q[0].qty) && FromFront(q[1..], fs[1..]))
  }

  /** What the list is once these fills are taken off its front. */
  ghost function Served(q: seq<Maker>, fs: seq<MatchResult>): seq<Maker>
    requires FromFront(q, fs)
  {
    if fs == [] then q
    else if fs[0].quantity == q[0].qty then Served(q[1..], fs[1..])
    else [q[0].(qty := q[0].qty - fs[0].quantity)] + q[1..]
  }

  lemma {:induction false} FillsFromFront(taker: Side, limit: Limit, q: seq<Maker>, qty: int)
    requires Positive(q) && qty >= 0
    ensures FromFront(q, Fills(taker, limit, q, qty))
    ensures Served(q, Fills(taker, limit, q, qty)) == Rest(taker, limit, q, qty)
  {
    if !Stops(taker, limit, q, qty) {
      var f := MinQty(qty, q[0].qty);
      var tail := Fills(taker, limit, q[1..], qty - f);
      assert Fills(taker, limit, q, qty) == [FillOf(q[0], f)] + tail;
      FillsFromFront(taker, limit, q[1..], qty - f);
      assert f < q[0].qty ==> tail == [];
    }
  }

  /** One fill off the front leaves the rest to be served as before. */
  lemma {:induction false} ServeOne(q: seq<Maker>, fs: seq<MatchResult>)
    requires fs != [] && FromFront(q, fs)
    ensures q != [] && 0 < fs[0].quantity <= q[0].qty
    ensures var q' := if fs[0].quantity == q[0].qty then q[1..] else [q[0].(qty := q[0].qty - fs[0].quantity)] + q[1..];
            FromFront(q', fs[1..]) && Served(q', fs[1..]) == Served(q, fs)
    ensures fs[0].quantity != q[0].qty ==> |fs| == 1
  {
  }
}
