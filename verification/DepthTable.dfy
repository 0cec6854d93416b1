/** Market depth: resting quantity per price, best price first. */
module DepthTable {
  import opened SortedEntries
  import opened ReferenceBook

  /** A price with a quantity: one resting order, or a whole level. */
  datatype Level = Level(price: int, quantity: int)

  ghost function Flat(q: seq<Maker>): seq<Level> {
    if q == [] then [] else [Level(q[0].price, q[0].qty)] + Flat(q[1..])
  }

  /** Everything resting at a price. */
  ghost function At(flat: seq<Level>, price: int): int {
    if flat == [] then 0 else (if flat[0].price == price then flat[0].quantity else 0) + At(flat[1..], price)
  }

  ghost predicate Priced(flat: seq<Level>, price: int) {
    exists i :: 0 <= i < |flat| && flat[i].price == price
  }

  ghost predicate BestFirst(taker: Side, d: seq<Level>) {
    forall i, j :: 0 <= i < j < |d| ==> Better(taker, d[i].price, d[j].price)
  }

  /** d lists every price of the orders once, with all that rests at it. */
  ghost predicate Groups(flat: seq<Level>, d: seq<Level>) {
    && (forall i :: 0 <= i < |d| ==> Priced(flat, d[i].price) && d[i].quantity == At(flat, d[i].price))
    && (forall i :: 0 <= i < |flat| ==> Priced(d, flat[i].price))
  }

  ghost predicate IsDepth(taker: Side, flat: seq<Level>, d: seq<Level>) {
    BestFirst(taker, d) && Groups(flat, d)
  }

  function Take(d: seq<Level>, n: nat): seq<Level> { if n <= |d| then d[..n] else d }

  // ---- there is one depth for any order of the same resting orders

  lemma {:induction false} AtAround(a: seq<Level>, l: Level, b: seq<Level>, price: int)
    ensures At(a + [l] + b, price) == At(a + b, price) + if l.price == price then l.quantity else 0
  {
    if a == [] {
      assert a + [l] + b == [l] + b && a + b == b && ([l] + b)[1..] == b;
    } else {
      assert (a + [l] + b)[0] == a[0] && (a + [l] + b)[1..] == a[1..] + [l] + b;
      assert (a + b)[0] == a[0] && (a + b)[1..] == a[1..] + b;
      AtAround(a[1..], l, b, price);
    }
  }

  lemma {:induction false} AtIgnoresOrder(a: seq<Level>, b: seq<Level>, price: int)
    requires multiset(a) == multiset(b)
    ensures At(a, price) == At(b, price)
  {
    if a == [] {
      assert |b| == |multiset(b)|;
    } else {
      assert a[0] in multiset(b);
      var i :| 0 <= i < |b| && b[i] == a[0];
      var rest := b[..i] + b[i + 1..];
      assert b == b[..i] + [a[0]] + b[i + 1..];
      WithoutFirst(a, b, i);
      AtAround(b[..i], a[0], b[i + 1..], price);
      AtIgnoresOrder(a[1..], rest, price);
    }
  }

  lemma {:induction false} PricedIgnoresOrder(a: seq<Level>, b: seq<Level>, price: int)
    requires multiset(a) == multiset(b) && Priced(a, price)
    ensures Priced(b, price)
  {
    var i :| 0 <= i < |a| && a[i].price == price;
    assert a[i] in multiset(b);
  }

  lemma {:induction false} DepthIgnoresOrder(taker: Side, a: seq<Level>, b: seq<Level>, d: seq<Level>)
    requires multiset(a) == multiset(b) && IsDepth(taker, a, d)
    ensures IsDepth(taker, b, d)
  {
    forall i | 0 <= i < |d| ensures Priced(b, d[i].price) && d[i].quantity == At(b, d[i].price) {
      PricedIgnoresOrder(a, b, d[i].price);
      AtIgnoresOrder(a, b, d[i].price);
    }
    forall i | 0 <= i < |b| ensures Priced(d, b[i].price) {
      assert b[i] in multiset(a);
      var j :| 0 <= j < |a| && a[j] == b[i];
    }
  }

  lemma {:induction false} SameMembersSameOrder(taker: Side, a: seq<Level>, b: seq<Level>)
    requires BestFirst(taker, a) && BestFirst(taker, b)
    requires (forall l :: l in a ==> l in b) && (forall l :: l in b ==> l in a)
    ensures a == b
  {
    if a == [] {
      if b != [] {
        FirstIn(b);
      }
    } else if b == [] {
      FirstIn(a);
    } else {
      assert a[0] in b && b[0] in a;
      assert a[0] == b[0];
      forall l | l in a[1..] ensures l in b[1..] {
        assert l in b && l != b[0];
      }
      forall l | l in b[1..] ensures l in a[1..] {
        assert l in a && l != a[0];
      }
      SameMembersSameOrder(taker, a[1..], b[1..]);
    }
  }

  lemma {:induction false} FirstIn(d: seq<Level>)
    requires d != []
    ensures d[0] in d
  {
  }

  /** The depth is determined by what rests. */
  lemma {:induction false} DepthIsUnique(taker: Side, flat: seq<Level>, d: seq<Level>, e: seq<Level>)
    requires IsDepth(taker, flat, d) && IsDepth(taker, flat, e)
    ensures d == e
  {
    GroupsWithin(flat, d, e);
    GroupsWithin(flat, e, d);
    SameMembersSameOrder(taker, d, e);
  }

  lemma {:induction false} GroupsWithin(flat: seq<Level>, d: seq<Level>, e: seq<Level>)
    requires Groups(flat, d) && Groups(flat, e)
    ensures forall l :: l in d ==> l in e
  {
    forall l | l in d ensures l in e {
      var i :| 0 <= i < |d| && d[i] == l;
      assert Priced(flat, d[i].price);
      var k :| 0 <= k < |flat| && flat[k].price == l.price;
      assert Priced(e, flat[k].price);
      var j :| 0 <= j < |e| && e[j].price == l.price;
      assert e[j] == l;
    }
  }

  // ---- the depth of a priority list

  /** Merges neighbours of the same price. */
  ghost function DepthOf(q: seq<Maker>): seq<Level> {
    if q == [] then []
    else
      var rest := DepthOf(q[1..]);
      if rest != [] && rest[0].price == q[0].price then [Level(q[0].price, q[0].qty + rest[0].quantity)] + rest[1..]
      else [Level(q[0].price, q[0].qty)] + rest
  }

  lemma {:induction false} DepthOfHead(q: seq<Maker>)
    ensures q == [] <==> DepthOf(q) == []
    ensures q != [] ==> DepthOf(q)[0].price == q[0].price
  {
    if q != [] {
      DepthOfHead(q[1..]);
    }
  }

  lemma {:induction false} DepthOfIsDepth(taker: Side, q: seq<Maker>)
    requires Priority(taker, q)
    ensures IsDepth(taker, Flat(q), DepthOf(q))
  {
    hide DepthOf;
    if q == [] {
      DepthOfHead(q);
    } else {
      DepthOfIsDepth(taker, q[1..]);
      assert |q| > 1 ==> !Better(taker, q[1].price, q[0].price);
      DepthOfStep(taker, q);
    }
  }

  lemma {:induction false} DepthOfStep(taker: Side, q: seq<Maker>)
    requires q != [] && IsDepth(taker, Flat(q[1..]), DepthOf(q[1..])) && (|q| > 1 ==> !Better(taker, q[1].price, q[0].price))
    ensures IsDepth(taker, Flat(q), DepthOf(q))
  {
    hide IsDepth;
    var l, rest := Level(q[0].price, q[0].qty), DepthOf(q[1..]);
    DepthOfHead(q[1..]);
    if |q| > 1 && q[1].price == q[0].price {
      assert DepthOf(q) == [Level(l.price, l.quantity + rest[0].quantity)] + rest[1..];
      JoinLevel(taker, l, Flat(q[1..]), rest);
    } else {
      assert DepthOf(q) == [l] + rest;
      NewLevel(taker, l, Flat(q[1..]), rest);
    }
    assert Flat(q) == [l] + Flat(q[1..]);
    hide DepthOf, Flat;
  }

  lemma {:induction false} PricedCons(l: Level, flat: seq<Level>, price: int)
    ensures Priced([l] + flat, price) <==> l.price == price || Priced(flat, price)
  {
    var more := [l] + flat;
    assert more[0] == l;
    if Priced(flat, price) {
      var i :| 0 <= i < |flat| && flat[i].price == price;
      assert more[i + 1].price == price;
    }
    if Priced(more, price) && l.price != price {
      var i :| 0 <= i < |more| && more[i].price == price;
      assert flat[i - 1].price == price;
    }
  }

  lemma {:induction false} AtCons(l: Level, flat: seq<Level>, price: int)
    ensures At([l] + flat, price) == At(flat, price) + if l.price == price then l.quantity else 0
  {
    assert ([l] + flat)[1..] == flat;
  }

  /** An order in front of the others, at a better price. */
  lemma {:induction false} NewLevel(taker: Side, l: Level, flat: seq<Level>, d: seq<Level>)
    requires IsDepth(taker, flat, d) && (d != [] ==> Better(taker, l.price, d[0].price))
    ensures IsDepth(taker, [l] + flat, [l] + d)
  {
    var more, e := [l] + flat, [l] + d;
    forall i | 0 <= i < |d| ensures Better(taker, l.price, d[i].price) {
      if i > 0 {
        assert Better(taker, d[0].price, d[i].price);
      }
    }
    NotPricedAt(flat, d, l.price);
    forall i | 0 <= i < |e| ensures Priced(more, e[i].price) && e[i].quantity == At(more, e[i].price) {
      PricedCons(l, flat, e[i].price);
      AtCons(l, flat, e[i].price);
      if i > 0 {
        assert e[i] == d[i - 1];
      }
    }
    forall i | 0 <= i < |more| ensures Priced(e, more[i].price) {
      PricedCons(l, d, more[i].price);
      if i > 0 {
        assert more[i] == flat[i - 1];
      }
    }
    hide Priced, At;
  }

  /** An order in front of the others, at the best price. */
  lemma {:induction false} JoinLevel(taker: Side, l: Level, flat: seq<Level>, d: seq<Level>)
    requires IsDepth(taker, flat, d) && d != [] && d[0].price == l.price
    ensures IsDepth(taker, [l] + flat, [Level(l.price, l.quantity + d[0].quantity)] + d[1..])
  {
    hide Priced, At;
    var more, e := [l] + flat, [Level(l.price, l.quantity + d[0].quantity)] + d[1..];
    forall i | 0 <= i < |e| ensures Priced(more, e[i].price) && e[i].quantity == At(more, e[i].price) {
      PricedCons(l, flat, e[i].price);
      AtCons(l, flat, e[i].price);
      assert i > 0 ==> e[i] == d[i] && Better(taker, d[0].price, d[i].price);
    }
    forall i | 0 <= i < |more| ensures Priced(e, more[i].price) {
      SamePrices(d, e, more[i].price);
      PricedAt(d, 0);
      assert i > 0 ==> more[i] == flat[i - 1];
    }
  }

  lemma {:induction false} PricedAt(d: seq<Level>, i: nat)
    requires i < |d|
    ensures Priced(d, d[i].price)
  {
  }

  lemma {:induction false} SamePrices(d: seq<Level>, e: seq<Level>, price: int)
    requires |d| == |e| && forall i :: 0 <= i < |d| ==> d[i].price == e[i].price
    ensures Priced(d, price) <==> Priced(e, price)
  {
    if Priced(d, price) {
      var i :| 0 <= i < |d| && d[i].price == price;
      PricedAt(e, i);
    }
    if Priced(e, price) {
      var i :| 0 <= i < |e| && e[i].price == price;
      PricedAt(d, i);
    }
  }

  lemma {:induction false} AtNone(flat: seq<Level>, price: int)
    requires forall i :: 0 <= i < |flat| ==> flat[i].price != price
    ensures At(flat, price) == 0
  {
    if flat != [] {
      AtNone(flat[1..], price);
    }
  }

  lemma {:induction false} NotPricedAt(flat: seq<Level>, d: seq<Level>, price: int)
    requires Groups(flat, d) && forall i :: 0 <= i < |d| ==> d[i].price != price
    ensures At(flat, price) == 0
  {
    forall i | 0 <= i < |flat| ensures flat[i].price != price {
      assert Priced(d, flat[i].price);
    }
    AtNone(flat, price);
  }

  // ---- the depth service, from the flat table of resting orders

  /** A resting limit order as the table has it. */
  datatype OrderRow = OrderRow(side: Side, price: Option<int>, remaining: int)

  ghost function RowsOn(rows: seq<OrderRow>, side: Side): seq<Level> {
    if rows == [] then []
    else
      var r := rows[|rows| - 1];
      if r.side == side && r.price.Some? then RowsOn(rows[..|rows| - 1], side) + [Level(r.price.value, r.remaining)]
      else RowsOn(rows[..|rows| - 1], side)
  }

  /** Adds to the entry of a price, or makes one behind the others. */
  function Put(m: seq<Level>, price: int, quantity: int): seq<Level> {
    if m == [] then [Level(price, quantity)]
    else if m[0].price == price then [Level(price, m[0].quantity + quantity)] + m[1..]
    else [m[0]] + Put(m[1..], price, quantity)
  }

  /** Puts a level where it belongs. */
  function Insert(taker: Side, d: seq<Level>, l: Level): seq<Level> {
    if d == [] || Better(taker, l.price, d[0].price) then [l] + d else [d[0]] + Insert(taker, d[1..], l)
  }

  function Sort(taker: Side, m: seq<Level>): seq<Level> {
    if m == [] then [] else Insert(taker, Sort(taker, m[1..]), m[0])
  }

  ghost predicate OncePriced(m: seq<Level>) {
    forall i, j :: 0 <= i < j < |m| ==> m[i].price != m[j].price
  }

  lemma {:induction false} PutMeans(m: seq<Level>, price: int, quantity: int, p: int)
    ensures At(Put(m, price, quantity), p) == At(m, p) + if p == price then quantity else 0
    ensures Priced(Put(m, price, quantity), p) <==> Priced(m, p) || p == price
  {
    if m == [] {
      PricedCons(Level(price, quantity), [], p);
      AtCons(Level(price, quantity), [], p);
    } else if m[0].price == price {
      assert m == [m[0]] + m[1..];
      PricedCons(m[0], m[1..], p);
      PricedCons(Level(price, m[0].quantity + quantity), m[1..], p);
      AtCons(Level(price, m[0].quantity + quantity), m[1..], p);
    } else {
      assert m == [m[0]] + m[1..];
      PutMeans(m[1..], price, quantity, p);
      PricedCons(m[0], m[1..], p);
      PricedCons(m[0], Put(m[1..], price, quantity), p);
      AtCons(m[0], Put(m[1..], price, quantity), p);
    }
    hide Priced;
  }

  lemma {:induction false} PutOnce(m: seq<Level>, price: int, quantity: int)
    requires OncePriced(m)
    ensures OncePriced(Put(m, price, quantity))
  {
    if m != [] && m[0].price != price {
      var r := Put(m[1..], price, quantity);
      PutOnce(m[1..], price, quantity);
      forall i | 0 <= i < |r| ensures r[i].price != m[0].price {
        assert Priced(r, r[i].price);
        PutMeans(m[1..], price, quantity, r[i].price);
        if r[i].price != price {
          var j :| 0 <= j < |m[1..]| && m[1..][j].price == r[i].price;
          assert m[j + 1].price == r[i].price;
        }
      }
    }
  }

  lemma {:induction false} InsertSorts(taker: Side, d: seq<Level>, l: Level)
    requires BestFirst(taker, d) && forall i :: 0 <= i < |d| ==> d[i].price != l.price
    ensures multiset(Insert(taker, d, l)) == multiset(d) + multiset{l} && BestFirst(taker, Insert(taker, d, l))
  {
    if d == [] || Better(taker, l.price, d[0].price) {
      assert forall i :: 0 < i < |d| ==> Better(taker, d[0].price, d[i].price);
    } else {
      InsertSorts(taker, d[1..], l);
      assert d == [d[0]] + d[1..];
      FirstStaysFirst(taker, d, Insert(taker, d[1..], l), l);
    }
  }

  lemma {:induction false} FirstStaysFirst(taker: Side, d: seq<Level>, tail: seq<Level>, l: Level)
    requires d != [] && BestFirst(taker, d) && Better(taker, d[0].price, l.price) && BestFirst(taker, tail)
    requires multiset(tail) == multiset(d[1..]) + multiset{l}
    ensures BestFirst(taker, [d[0]] + tail)
  {
    forall i | 0 <= i < |tail| ensures Better(taker, d[0].price, tail[i].price) {
      assert tail[i] in multiset(tail);
      assert tail[i] in d[1..] || tail[i] == l;
    }
  }

  lemma {:induction false} SortSorts(taker: Side, m: seq<Level>)
    requires OncePriced(m)
    ensures multiset(Sort(taker, m)) == multiset(m) && BestFirst(taker, Sort(taker, m))
  {
    if m != [] {
      var d := Sort(taker, m[1..]);
      SortSorts(taker, m[1..]);
      assert m == [m[0]] + m[1..];
      forall i | 0 <= i < |d| ensures d[i].price != m[0].price {
        assert d[i] in multiset(m[1..]);
        var j :| 0 <= j < |m[1..]| && m[1..][j] == d[i];
        assert m[j + 1] == d[i];
      }
      InsertSorts(taker, d, m[0]);
    }
  }

  /** The map m has gathered the orders. */
  ghost predicate Gathered(flat: seq<Level>, m: seq<Level>) {
    OncePriced(m) && forall p :: At(m, p) == At(flat, p) && (Priced(m, p) <==> Priced(flat, p))
  }

  lemma {:induction false} AtOnce(m: seq<Level>, i: nat)
    requires OncePriced(m) && i < |m|
    ensures At(m, m[i].price) == m[i].quantity
  {
    if i == 0 {
      AtNone(m[1..], m[0].price);
    } else {
      assert OncePriced(m[1..]) && m[0].price != m[i].price;
      AtOnce(m[1..], i - 1);
    }
  }

  lemma {:induction false} GatheredIsDepth(taker: Side, flat: seq<Level>, m: seq<Level>)
    requires Gathered(flat, m)
    ensures IsDepth(taker, flat, Sort(taker, m))
  {
    SortSorts(taker, m);
    forall i | 0 <= i < |m| ensures Priced(flat, m[i].price) && m[i].quantity == At(flat, m[i].price) {
      AtOnce(m, i);
      assert Priced(m, m[i].price);
    }
    forall i | 0 <= i < |flat| ensures Priced(m, flat[i].price) {
      assert Priced(flat, flat[i].price);
    }
    assert Groups(flat, m);
    GroupsIgnoreOrder(flat, m, Sort(taker, m));
    hide Groups, Gathered;
  }

  lemma {:induction false} GroupsIgnoreOrder(flat: seq<Level>, m: seq<Level>, d: seq<Level>)
    requires Groups(flat, m) && multiset(m) == multiset(d)
    ensures Groups(flat, d)
  {
    forall i | 0 <= i < |d| ensures Priced(flat, d[i].price) && d[i].quantity == At(flat, d[i].price) {
      assert d[i] in multiset(m);
      var j :| 0 <= j < |m| && m[j] == d[i];
    }
    forall i | 0 <= i < |flat| ensures Priced(d, flat[i].price) {
      PricedIgnoresOrder(m, d, flat[i].price);
    }
  }

  lemma {:induction false} GatherOne(flat: seq<Level>, m: seq<Level>, l: Level)
    requires Gathered(flat, m)
    ensures Gathered(flat + [l], Put(m, l.price, l.quantity))
  {
    PutOnce(m, l.price, l.quantity);
    forall p ensures var r := Put(m, l.price, l.quantity);
                     At(r, p) == At(flat + [l], p) && (Priced(r, p) <==> Priced(flat + [l], p)) {
      PutMeans(m, l.price, l.quantity, p);
      AtAround(flat, l, [], p);
      assert flat + [l] + [] == flat + [l] && flat + [] == flat;
      PricedAppend(flat, l, p);
    }
    hide At, Priced, OncePriced;
  }

  lemma {:induction false} PricedAppend(flat: seq<Level>, l: Level, p: int)
    ensures Priced(flat + [l], p) <==> Priced(flat, p) || l.price == p
  {
    var more := flat + [l];
    assert more[|flat|] == l;
    if Priced(flat, p) {
      var i :| 0 <= i < |flat| && flat[i].price == p;
      assert more[i].price == p;
    }
    if Priced(more, p) && l.price != p {
      var i :| 0 <= i < |more| && more[i].price == p;
      assert flat[i].price == p;
    }
  }

  /** Groups the table by price and sorts it, best price first. */
  method BuildDepth(rows: seq<OrderRow>, levels: nat) returns (bids: seq<Level>, asks: seq<Level>)
    ensures exists d :: IsDepth(Sell, RowsOn(rows, Buy), d) && bids == Take(d, levels)
    ensures exists d :: IsDepth(Buy, RowsOn(rows, Sell), d) && asks == Take(d, levels)
  {
    hide Gathered, IsDepth;
    var bidsMap, asksMap: seq<Level> := [], [];
    NothingGathered();
    for i := 0 to |rows|
      invariant Gathered(RowsOn(rows[..i], Buy), bidsMap) && Gathered(RowsOn(rows[..i], Sell), asksMap)
    {
      var o := rows[i];
      assert rows[..i + 1][..i] == rows[..i];
      if o.price == None {
        continue;
      }
      if o.side == Buy {
        GatherOne(RowsOn(rows[..i], Buy), bidsMap, Level(o.price.value, o.remaining));
        bidsMap := Put(bidsMap, o.price.value, o.remaining);
      } else {
        GatherOne(RowsOn(rows[..i], Sell), asksMap, Level(o.price.value, o.remaining));
        asksMap := Put(asksMap, o.price.value, o.remaining);
      }
    }
    assert rows[..|rows|] == rows;
    GatheredIsDepth(Sell, RowsOn(rows, Buy), bidsMap);
    GatheredIsDepth(Buy, RowsOn(rows, Sell), asksMap);
    bids, asks := Take(Sort(Sell, bidsMap), levels), Take(Sort(Buy, asksMap), levels);
  }

  lemma {:induction false} NothingGathered()
    ensures Gathered([], [])
  {
  }

  /** When the table holds the orders that rest in a book side, what the service lists is what the levels of the book say,
      whatever the order of the rows. */
  lemma {:induction false} TableIsBook(taker: Side, q: seq<Maker>, rows: seq<OrderRow>, side: Side, d: seq<Level>)
    requires Priority(taker, q) && multiset(RowsOn(rows, side)) == multiset(Flat(q))
    ensures IsDepth(taker, RowsOn(rows, side), d) <==> d == DepthOf(q)
  {
    DepthOfIsDepth(taker, q);
    DepthIgnoresOrder(taker, Flat(q), RowsOn(rows, side), DepthOf(q));
    if IsDepth(taker, RowsOn(rows, side), d) {
      DepthIsUnique(taker, RowsOn(rows, side), d, DepthOf(q));
    }
  }
}
