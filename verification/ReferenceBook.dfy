/** The order book as two priority lists: what both engines are measured against. */
module ReferenceBook {
  import opened SortedEntries

  datatype Side = Buy | Sell

  /** A resting order. */
  datatype Maker = Maker(id: string, user: string, price: int, qty: int)

  datatype MatchResult = MatchResult(makerOrderId: string, makerUserId: string, price: int, quantity: int, makerRemainingBefore: int)

  /** The limit of a taker; a market order has none. */
  type Limit = Option<int>

  predicate Crosses(taker: Side, limit: Limit, price: int) {
    match limit
    case None => true
    case Some(l) => if taker == Buy then price <= l else price >= l
  }

  /** Price p is served strictly before price q: low asks for a buyer, high bids for a seller. */
  predicate Better(taker: Side, p: int, q: int) {
    if taker == Buy then p < q else p > q
  }

  /** Best price first. */
  ghost predicate Priority(taker: Side, q: seq<Maker>) {
    forall i, j :: 0 <= i < j < |q| ==> !Better(taker, q[j].price, q[i].price)
  }

  ghost predicate Positive(q: seq<Maker>) {
    forall i :: 0 <= i < |q| ==> q[i].qty > 0
  }

  ghost function MinQty(a: int, b: int): int { if a <= b then a else b }

  ghost function FillOf(m: Maker, qty: int): MatchResult {
    MatchResult(m.id, m.user, m.price, qty, m.qty)
  }

  // ---- the greedy fill

  ghost predicate Stops(taker: Side, limit: Limit, q: seq<Maker>, qty: int) {
    q == [] || qty <= 0 || !Crosses(taker, limit, q[0].price)
  }

  ghost function Fills(taker: Side, limit: Limit, q: seq<Maker>, qty: int): seq<MatchResult> {
    if Stops(taker, limit, q, qty) then []
    else
      var f := MinQty(qty, q[0].qty);
      [FillOf(q[0], f)] + Fills(taker, limit, q[1..], qty - f)
  }

  /** What the list is afterwards. */
  ghost function Rest(taker: Side, limit: Limit, q: seq<Maker>, qty: int): seq<Maker> {
    if Stops(taker, limit, q, qty) then q
    else if q[0].qty <= qty then Rest(taker, limit, q[1..], qty - q[0].qty)
    else [q[0].(qty := q[0].qty - qty)] + q[1..]
  }

  ghost function FilledQty(ms: seq<MatchResult>): int {
    if ms == [] then 0 else ms[0].quantity + FilledQty(ms[1..])
  }

  ghost function Total(q: seq<Maker>): int {
    if q == [] then 0 else q[0].qty + Total(q[1..])
  }

  lemma {:induction false} FilledCons(m: MatchResult, ms: seq<MatchResult>)
    ensures FilledQty([m] + ms) == m.quantity + FilledQty(ms)
  {
    assert ([m] + ms)[1..] == ms;
  }

  lemma {:induction false} FilledAppend(ms: seq<MatchResult>, m: MatchResult)
    ensures FilledQty(ms + [m]) == FilledQty(ms) + m.quantity
  {
    if ms == [] {
      assert ms + [m] == [m];
    } else {
      FilledAppend(ms[1..], m);
      assert (ms + [m])[1..] == ms[1..] + [m];
    }
  }

  lemma {:induction false} FillsUnfold(taker: Side, limit: Limit, q: seq<Maker>, qty: int)
    requires !Stops(taker, limit, q, qty)
    ensures var f := MinQty(qty, q[0].qty);
            && Fills(taker, limit, q, qty) == [FillOf(q[0], f)] + Fills(taker, limit, q[1..], qty - f)
            && FilledQty(Fills(taker, limit, q, qty)) == f + FilledQty(Fills(taker, limit, q[1..], qty - f))
  {
    FilledCons(FillOf(q[0], MinQty(qty, q[0].qty)), Fills(taker, limit, q[1..], qty - MinQty(qty, q[0].qty)));
  }

  /** ms takes orders from the front of q at crossing prices, every order but the last one entirely. */
  ghost predicate TakesFront(taker: Side, limit: Limit, q: seq<Maker>, ms: seq<MatchResult>) {
    && |ms| <= |q|
    && (forall i :: 0 <= i < |ms| ==>
          ms[i] == FillOf(q[i], ms[i].quantity) && 0 < ms[i].quantity <= q[i].qty && Crosses(taker, limit, q[i].price))
    && (forall i :: 0 <= i < |ms| - 1 ==> ms[i].quantity == q[i].qty)
  }

  /** The taker has all it asked for, or has emptied every order that crosses. */
  ghost predicate Exhausts(taker: Side, limit: Limit, q: seq<Maker>, qty: int, ms: seq<MatchResult>)
    requires |ms| <= |q|
  {
    && FilledQty(ms) <= qty
    && (FilledQty(ms) < qty ==>
          && (ms != [] ==> ms[|ms| - 1].quantity == q[|ms| - 1].qty)
          && (|ms| == |q| || !Crosses(taker, limit, q[|ms|].price)))
  }

  /** The declarative reading of price-time priority. */
  ghost predicate IsGreedy(taker: Side, limit: Limit, q: seq<Maker>, qty: int, ms: seq<MatchResult>) {
    TakesFront(taker, limit, q, ms) && Exhausts(taker, limit, q, qty, ms)
  }

  lemma {:induction false} TakesFrontCons(taker: Side, limit: Limit, q: seq<Maker>, ms: seq<MatchResult>)
    requires q != [] && ms != []
    ensures TakesFront(taker, limit, q, ms) <==>
              && TakesFront(taker, limit, q[1..], ms[1..])
              && ms[0] == FillOf(q[0], ms[0].quantity) && 0 < ms[0].quantity <= q[0].qty
              && Crosses(taker, limit, q[0].price) && (|ms| > 1 ==> ms[0].quantity == q[0].qty)
  {
    var a, b := q[1..], ms[1..];
    if TakesFront(taker, limit, a, b) && ms[0] == FillOf(q[0], ms[0].quantity) {
      assert forall i :: 0 < i < |ms| ==> ms[i] == b[i - 1] && q[i] == a[i - 1];
    }
    if TakesFront(taker, limit, q, ms) {
      assert forall i :: 0 <= i < |b| ==> b[i] == ms[i + 1] && a[i] == q[i + 1];
    }
  }

  lemma {:induction false} FillsTakeFront(taker: Side, limit: Limit, q: seq<Maker>, qty: int)
    requires Positive(q) && qty >= 0
    ensures TakesFront(taker, limit, q, Fills(taker, limit, q, qty))
  {
    if !Stops(taker, limit, q, qty) {
      var f := MinQty(qty, q[0].qty);
      FillsTakeFront(taker, limit, q[1..], qty - f);
      var ms, rest := Fills(taker, limit, q, qty), Fills(taker, limit, q[1..], qty - f);
      assert ms[0] == FillOf(q[0], f) && ms[1..] == rest;
      assert f < q[0].qty ==> rest == [];
      TakesFrontCons(taker, limit, q, ms);
      hide TakesFront;
    }
  }

  lemma {:induction false} ExhaustsCons(taker: Side, limit: Limit, q: seq<Maker>, qty: int, f: int, rest: seq<MatchResult>)
    requires q != [] && |rest| <= |q| - 1 && Exhausts(taker, limit, q[1..], qty - f, rest)
    requires f < q[0].qty ==> rest == [] && f == qty
    requires f <= q[0].qty
    ensures Exhausts(taker, limit, q, qty, [FillOf(q[0], f)] + rest)
  {
    FilledCons(FillOf(q[0], f), rest);
    hide FilledQty, Crosses;
  }

  lemma {:induction false} FillsExhaust(taker: Side, limit: Limit, q: seq<Maker>, qty: int)
    requires Positive(q) && qty >= 0
    ensures |Fills(taker, limit, q, qty)| <= |q|
    ensures Exhausts(taker, limit, q, qty, Fills(taker, limit, q, qty))
  {
    if !Stops(taker, limit, q, qty) {
      var f := MinQty(qty, q[0].qty);
      FillsExhaust(taker, limit, q[1..], qty - f);
      var ms, rest := Fills(taker, limit, q, qty), Fills(taker, limit, q[1..], qty - f);
      assert ms == [FillOf(q[0], f)] + rest;
      assert f < q[0].qty ==> rest == [] && f == qty;
      ExhaustsCons(taker, limit, q, qty, f, rest);
      hide Fills, FilledQty, Crosses, Exhausts;
    }
  }

  lemma {:induction false} FillsAreGreedy(taker: Side, limit: Limit, q: seq<Maker>, qty: int)
    requires Positive(q) && qty >= 0
    ensures IsGreedy(taker, limit, q, qty, Fills(taker, limit, q, qty))
  {
    FillsTakeFront(taker, limit, q, qty);
    FillsExhaust(taker, limit, q, qty);
  }

  lemma {:induction false} GreedyIsUnique(taker: Side, limit: Limit, q: seq<Maker>, qty: int, ms: seq<MatchResult>)
    requires Positive(q) && qty >= 0 && IsGreedy(taker, limit, q, qty, ms)
    ensures ms == Fills(taker, limit, q, qty)
  {
    hide TakesFront, Exhausts, Fills, FilledQty;
    GreedyStep(taker, limit, q, qty, ms);
    if ms != [] {
      var f := ms[0].quantity;
      GreedyIsUnique(taker, limit, q[1..], qty - f, ms[1..]);
      FillsUnfold(taker, limit, q, qty);
      assert ms == [ms[0]] + ms[1..];
    }
  }

  /** A greedy list starts with what the first order can give, and goes on greedily. */
  lemma {:induction false} GreedyStep(taker: Side, limit: Limit, q: seq<Maker>, qty: int, ms: seq<MatchResult>)
    requires Positive(q) && qty >= 0 && IsGreedy(taker, limit, q, qty, ms)
    ensures ms == [] ==> Fills(taker, limit, q, qty) == []
    ensures ms != [] ==>
              && !Stops(taker, limit, q, qty) && Positive(q[1..])
              && var f := MinQty(qty, q[0].qty);
                 ms[0] == FillOf(q[0], f) && qty - f >= 0 && IsGreedy(taker, limit, q[1..], qty - f, ms[1..])
  {
    if ms != [] {
      TakesFrontCons(taker, limit, q, ms);
      FilledTail(ms);
      FilledPositive(ms[1..]);
      hide TakesFront;
      assert ms[0].quantity == MinQty(qty, q[0].qty);
    }
  }

  lemma {:induction false} FilledTail(ms: seq<MatchResult>)
    requires ms != []
    ensures FilledQty(ms) == ms[0].quantity + FilledQty(ms[1..])
  {
  }

  lemma {:induction false} FilledPositive(ms: seq<MatchResult>)
    requires forall i :: 0 <= i < |ms| ==> ms[i].quantity > 0
    ensures FilledQty(ms) >= 0 && (ms != [] ==> FilledQty(ms) > 0)
  {
    if ms != [] {
      FilledPositive(ms[1..]);
    }
  }

  /** Nothing is created or lost: what the taker got is what the makers gave. */
  lemma {:induction false} FillsConserve(taker: Side, limit: Limit, q: seq<Maker>, qty: int)
    requires Positive(q) && qty >= 0
    ensures Total(Rest(taker, limit, q, qty)) + FilledQty(Fills(taker, limit, q, qty)) == Total(q)
    ensures 0 <= FilledQty(Fills(taker, limit, q, qty)) <= qty
    ensures Positive(Rest(taker, limit, q, qty))
  {
    if !Stops(taker, limit, q, qty) {
      var f := MinQty(qty, q[0].qty);
      FillsConserve(taker, limit, q[1..], qty - f);
      if f < q[0].qty {
        assert Stops(taker, limit, q[1..], 0);
        assert Rest(taker, limit, q, qty)[1..] == q[1..];
      }
    }
  }

  ghost predicate NothingCrosses(taker: Side, limit: Limit, q: seq<Maker>) {
    forall i :: 0 <= i < |q| ==> !Crosses(taker, limit, q[i].price)
  }

  /** Either the taker is served or no order left on the side crosses its limit. */
  lemma {:induction false} ServedOrUncrossed(taker: Side, limit: Limit, q: seq<Maker>, qty: int)
    requires Positive(q) && qty >= 0 && Priority(taker, q)
    ensures FilledQty(Fills(taker, limit, q, qty)) == qty || NothingCrosses(taker, limit, Rest(taker, limit, q, qty))
  {
    if !Stops(taker, limit, q, qty) {
      var f := MinQty(qty, q[0].qty);
      var rest := Fills(taker, limit, q[1..], qty - f);
      assert Fills(taker, limit, q, qty) == [FillOf(q[0], f)] + rest;
      FilledCons(FillOf(q[0], f), rest);
      if f < q[0].qty {
        assert rest == [] && f == qty;
      } else {
        ServedOrUncrossed(taker, limit, q[1..], qty - f);
        assert Rest(taker, limit, q, qty) == Rest(taker, limit, q[1..], qty - f);
      }
    } else if qty > 0 && q != [] {
      assert !Crosses(taker, limit, q[0].price);
      assert forall i :: 0 < i < |q| ==> !Better(taker, q[i].price, q[0].price);
    }
  }

  // ---- resting and cancelling

  /** A new order queues behind every order whose price is at least as good. */
  ghost function Enqueue(taker: Side, q: seq<Maker>, m: Maker): seq<Maker> {
    if q == [] || Better(taker, m.price, q[0].price) then [m] + q else [q[0]] + Enqueue(taker, q[1..], m)
  }

  /** Takes out the first order with this id at this price. */
  ghost function Remove(q: seq<Maker>, id: string, price: int): seq<Maker> {
    if q == [] then []
    else if q[0].id == id && q[0].price == price then q[1..]
    else [q[0]] + Remove(q[1..], id, price)
  }

  ghost predicate Rests(q: seq<Maker>, id: string, price: int) {
    exists i :: 0 <= i < |q| && q[i].id == id && q[i].price == price
  }

  lemma {:induction false} EnqueueContents(taker: Side, q: seq<Maker>, m: Maker)
    ensures multiset(Enqueue(taker, q, m)) == multiset(q) + multiset{m}
    ensures Total(Enqueue(taker, q, m)) == Total(q) + m.qty
  {
    if q == [] || Better(taker, m.price, q[0].price) {
    } else {
      EnqueueContents(taker, q[1..], m);
      assert q == [q[0]] + q[1..];
    }
  }

  lemma {:induction false} EnqueueIsWorse(taker: Side, q: seq<Maker>, m: Maker)
    requires Priority(taker, q) && q != [] && !Better(taker, m.price, q[0].price)
    ensures forall x :: x in Enqueue(taker, q[1..], m) ==> !Better(taker, x.price, q[0].price)
  {
    var e := Enqueue(taker, q[1..], m);
    EnqueueContents(taker, q[1..], m);
    hide Better, Enqueue;
    forall x | x in e ensures !Better(taker, x.price, q[0].price) {
      assert x in multiset(e);
      assert x in q[1..] || x == m;
    }
  }

  lemma {:induction false} EnqueueKeepsPriority(taker: Side, q: seq<Maker>, m: Maker)
    requires Priority(taker, q)
    ensures Priority(taker, Enqueue(taker, q, m))
  {
    if q == [] || Better(taker, m.price, q[0].price) {
    } else {
      EnqueueKeepsPriority(taker, q[1..], m);
      EnqueueIsWorse(taker, q, m);
      hide Better;
    }
  }

  /** The place of a new order: behind all who offer as much or more to the taker, before all who offer less. */
  lemma {:induction false} EnqueuePlace(taker: Side, q: seq<Maker>, m: Maker) returns (i: nat)
    requires Priority(taker, q)
    ensures i <= |q| && Enqueue(taker, q, m) == q[..i] + [m] + q[i..]
    ensures forall j :: 0 <= j < i ==> if taker == Buy then q[j].price <= m.price else q[j].price >= m.price
    ensures forall j :: i <= j < |q| ==> if taker == Buy then q[j].price > m.price else q[j].price < m.price
  {
    if q == [] || Better(taker, m.price, q[0].price) {
      i := 0;
      assert forall j :: 0 < j < |q| ==> !Better(taker, q[j].price, q[0].price);
    } else {
      i := EnqueuePlace(taker, q[1..], m);
      assert [q[0]] + (q[1..][..i] + [m] + q[1..][i..]) == q[..i + 1] + [m] + q[i + 1..];
      assert forall j :: 0 < j < |q| ==> q[j] == q[1..][j - 1];
      i := i + 1;
    }
  }

  /** Nobody leaves but the first order of this id and price, if there is one. */
  ghost predicate Leaves(q: seq<Maker>, q': seq<Maker>, id: string, price: int) {
    || (q' == q && forall j :: 0 <= j < |q| ==> q[j].id != id || q[j].price != price)
    || (exists i :: 0 <= i < |q| && q[i].id == id && q[i].price == price && q' == q[..i] + q[i + 1..]
                    && forall j :: 0 <= j < i ==> q[j].id != id || q[j].price != price)
  }

  lemma {:induction false} RemoveLeaves(q: seq<Maker>, id: string, price: int)
    ensures Leaves(q, Remove(q, id, price), id, price)
  {
    var i := RemovePlace(q, id, price);
    hide Remove;
    if i < |q| {
      assert q[i].id == id;
    }
  }

  lemma {:induction false} RemovePlace(q: seq<Maker>, id: string, price: int) returns (i: nat)
    ensures i <= |q| && forall j :: 0 <= j < i ==> q[j].id != id || q[j].price != price
    ensures if i == |q| then Remove(q, id, price) == q
            else q[i].id == id && q[i].price == price && Remove(q, id, price) == q[..i] + q[i + 1..]
  {
    if q == [] || (q[0].id == id && q[0].price == price) {
      i := 0;
    } else {
      var t := q[1..];
      var k := RemovePlace(t, id, price);
      assert Remove(q, id, price) == [q[0]] + Remove(t, id, price);
      hide Remove;
      i := k + 1;
      assert q == [q[0]] + t;
      if k < |t| {
        Assoc([q[0]], t[..k], t[k + 1..]);
        assert q[..i] == [q[0]] + t[..k] && q[i + 1..] == t[k + 1..];
      }
    }
  }

  lemma {:induction false} RemoveKeepsPriority(taker: Side, q: seq<Maker>, id: string, price: int)
    requires Priority(taker, q)
    ensures Priority(taker, Remove(q, id, price))
    ensures forall m :: m in Remove(q, id, price) ==> m in q
  {
    if q != [] {
      RemoveKeepsPriority(taker, q[1..], id, price);
      var r := Remove(q[1..], id, price);
      forall j | 0 <= j < |r| ensures !Better(taker, r[j].price, q[0].price) {
        assert r[j] in q[1..];
      }
    }
  }

  lemma {:induction false} RestKeepsPriority(taker: Side, limit: Limit, q: seq<Maker>, qty: int)
    requires Priority(taker, q)
    ensures Priority(taker, Rest(taker, limit, q, qty))
    ensures forall m :: m in Rest(taker, limit, q, qty) ==> exists n :: n in q && n.id == m.id && n.price == m.price && n.user == m.user
  {
    if !Stops(taker, limit, q, qty) {
      if q[0].qty <= qty {
        RestKeepsPriority(taker, limit, q[1..], qty - q[0].qty);
      }
    }
  }
}
