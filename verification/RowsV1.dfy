/** Order rows of the first engine, and which resting orders they stand for. */
module RowsV1 {
  import opened SortedEntries
  import opened ReferenceBook
  import opened PriorityLists
  import opened EngineModel

  datatype Status = Pending | Open | PartlyFilled | FilledUp | Cancelled | RejectedRow

  datatype Row = Row(id: string, user: string, side: Side, kind: Kind, price: Option<int>, tif: TimeInForce, postOnly: bool,
                     status: Status, quantity: int, filled: int, remaining: int)

  /** A row that should be in the book. */
  predicate IsResting(r: Row) {
    r.kind == LimitOrder && r.price.Some? && (r.status == Open || r.status == PartlyFilled)
  }

  /** The resting order of a row; key turns its price into an index key. */
  ghost function MakerOf(r: Row, key: int -> int): Maker
    requires r.price.Some?
  {
    Maker(r.id, r.user, key(r.price.value), r.remaining)
  }

  ghost function Part(r: Row, side: Side, key: int -> int): multiset<Maker> {
    if IsResting(r) && r.side == side then multiset{MakerOf(r, key)} else multiset{}
  }

  /** The resting orders of one side, as the rows have them. */
  ghost function Booked(rows: seq<Row>, side: Side, key: int -> int): multiset<Maker> {
    if rows == [] then multiset{} else Part(rows[0], side, key) + Booked(rows[1..], side, key)
  }

  ghost function FilledOn(rows: seq<Row>, side: Side): int {
    if rows == [] then 0 else (if rows[0].side == side then rows[0].filled else 0) + FilledOn(rows[1..], side)
  }

  ghost predicate RowOk(r: Row) {
    && r.filled + r.remaining == r.quantity && r.filled >= 0 && r.remaining >= 0
    && (r.status == Pending ==> r.filled == 0 && r.remaining > 0)
    && (IsResting(r) ==> r.remaining > 0)
  }

  /** Quantities add up row by row, ids are unique, and what buyers got is what sellers gave. */
  ghost predicate RowsOk(rows: seq<Row>) {
    RowsSound(rows) && FilledOn(rows, Buy) == FilledOn(rows, Sell)
  }

  function RowAt(rows: seq<Row>, id: string): (i: nat)
    ensures i <= |rows| && (i < |rows| ==> rows[i].id == id) && forall j :: 0 <= j < i ==> rows[j].id != id
  {
    if rows == [] || rows[0].id == id then 0 else 1 + RowAt(rows[1..], id)
  }

  lemma {:induction false} RowAtIs(rows: seq<Row>, i: nat)
    requires i < |rows| && forall j :: 0 <= j < i ==> rows[j].id != rows[i].id
    ensures RowAt(rows, rows[i].id) == i
  {
    if i > 0 {
      RowAtIs(rows[1..], i - 1);
    }
  }

  lemma {:induction false} BookedAround(a: seq<Row>, r: Row, b: seq<Row>, side: Side, key: int -> int)
    ensures Booked(a + [r] + b, side, key) == Booked(a + b, side, key) + Part(r, side, key)
  {
    if a == [] {
      assert a + [r] + b == [r] + b && a + b == b && ([r] + b)[1..] == b;
    } else {
      assert (a + [r] + b)[0] == a[0] && (a + [r] + b)[1..] == a[1..] + [r] + b;
      assert (a + b)[0] == a[0] && (a + b)[1..] == a[1..] + b;
      BookedAround(a[1..], r, b, side, key);
    }
    hide Part;
  }

  /** All but row i. */
  ghost function Others(rows: seq<Row>, i: nat, side: Side, key: int -> int): multiset<Maker>
    requires i < |rows|
  {
    Booked(rows[..i] + rows[i + 1..], side, key)
  }

  lemma {:induction false} BookedUpdate(rows: seq<Row>, i: nat, r: Row, side: Side, key: int -> int)
    requires i < |rows|
    ensures Booked(rows, side, key) == Others(rows, i, side, key) + Part(rows[i], side, key)
    ensures Booked(rows[i := r], side, key) == Others(rows, i, side, key) + Part(r, side, key)
  {
    hide Booked, Part;
    assert rows == rows[..i] + [rows[i]] + rows[i + 1..] && rows[i := r] == rows[..i] + [r] + rows[i + 1..];
    BookedAround(rows[..i], rows[i], rows[i + 1..], side, key);
    BookedAround(rows[..i], r, rows[i + 1..], side, key);
  }

  lemma {:induction false} FilledUpdate(rows: seq<Row>, i: nat, r: Row, side: Side)
    requires i < |rows| && r.side == rows[i].side
    ensures FilledOn(rows[i := r], side) == FilledOn(rows, side) + if r.side == side then r.filled - rows[i].filled else 0
  {
    var u := rows[i := r];
    if i == 0 {
      assert u[1..] == rows[1..];
    } else {
      assert u[1..] == rows[1..][i - 1 := r];
      FilledUpdate(rows[1..], i - 1, r, side);
    }
  }

  lemma {:induction false} BookedHas(rows: seq<Row>, side: Side, key: int -> int, m: Maker) returns (i: nat)
    requires m in Booked(rows, side, key)
    ensures i < |rows| && IsResting(rows[i]) && rows[i].side == side && MakerOf(rows[i], key) == m
  {
    if m in Part(rows[0], side, key) {
      i := 0;
    } else {
      i := BookedHas(rows[1..], side, key, m);
      i := i + 1;
    }
  }

  /** Each row is sound and has an id of its own. */
  ghost predicate RowsSound(rows: seq<Row>) {
    (forall i :: 0 <= i < |rows| ==> RowOk(rows[i])) && (forall i, j :: 0 <= i < j < |rows| ==> rows[i].id != rows[j].id)
  }

  /** Only rows resting on this side have changed, each by being filled, in part or entirely. */
  ghost predicate OnlyMakers(before: seq<Row>, after: seq<Row>, side: Side) {
    && |after| == |before|
    && forall i :: 0 <= i < |before| ==>
         && after[i] == before[i].(status := after[i].status, filled := after[i].filled, remaining := after[i].remaining)
         && (after[i] != before[i] ==>
               && before[i].side == side && IsResting(before[i]) && after[i].remaining < before[i].remaining
               && after[i].status == if after[i].remaining == 0 then FilledUp else PartlyFilled)
  }

  // ---- one fill, in the rows and in the list

  /** The maker's row after a match, as the engine writes it. */
  function MakerRow(r: Row, before: int, quantity: int): Row {
    var left := before - quantity;
    r.(remaining := left, filled := r.filled + quantity, status := if left == 0 then FilledUp else PartlyFilled)
  }

  /** The front order of the list has its row, which is sound after the match. */
  lemma {:induction false} MakerHasRow(rows: seq<Row>, side: Side, key: int -> int, q: seq<Maker>, fs: seq<MatchResult>)
    requires RowsSound(rows) && Booked(rows, side, key) == multiset(q) && FromFront(q, fs) && fs != []
    ensures var i := RowAt(rows, fs[0].makerOrderId);
            && q != [] && i < |rows| && rows[i].side == side && IsResting(rows[i]) && MakerOf(rows[i], key) == q[0]
            && fs[0].makerRemainingBefore == q[0].qty
            && RowOk(MakerRow(rows[i], fs[0].makerRemainingBefore, fs[0].quantity))
  {
    ServeOne(q, fs);
    assert q[0] in multiset(q);
    var i := BookedHas(rows, side, key, q[0]);
    RowAtIs(rows, i);
    hide Booked, FromFront;
  }

  /** Writing the maker's row keeps the rows in step with the list, one fill further on. */
  lemma {:induction false} FillsRow(rows: seq<Row>, side: Side, key: int -> int, q: seq<Maker>, i: nat, quantity: int)
    requires q != [] && i < |rows| && rows[i].side == side && IsResting(rows[i]) && MakerOf(rows[i], key) == q[0]
    requires Booked(rows, side, key) == multiset(q) && 0 < quantity <= q[0].qty
    ensures var q' := if quantity == q[0].qty then q[1..] else [q[0].(qty := q[0].qty - quantity)] + q[1..];
            Booked(rows[i := MakerRow(rows[i], q[0].qty, quantity)], side, key) == multiset(q')
  {
    hide Booked, Others;
    var r := MakerRow(rows[i], q[0].qty, quantity);
    BookedUpdate(rows, i, r, side, key);
    HeadAndRest(q);
    SameRest(Others(rows, i, side, key), q[0], multiset(q[1..]));
    if quantity == q[0].qty {
      assert Others(rows, i, side, key) + multiset{} == Others(rows, i, side, key);
    } else {
      var q' := [q[0].(qty := q[0].qty - quantity)] + q[1..];
      HeadAndRest(q');
      assert q'[1..] == q[1..];
    }
  }

  lemma {:induction false} HeadAndRest(q: seq<Maker>)
    requires q != []
    ensures multiset(q) == multiset{q[0]} + multiset(q[1..])
  {
    assert q == [q[0]] + q[1..];
  }

  lemma {:induction false} SameRest(a: multiset<Maker>, m: Maker, b: multiset<Maker>)
    requires a + multiset{m} == multiset{m} + b
    ensures a == b
  {
    assert a == a + multiset{m} - multiset{m};
    assert b == multiset{m} + b - multiset{m};
  }

  // ---- starting again from the table

  /** The rows that are loaded into the book. */
  predicate Loaded(r: Row) {
    r.kind == LimitOrder && r.price.Some? && (r.status == Open || r.status == Pending || r.status == PartlyFilled)
  }

  /** One side of the book as loading the table builds it. */
  ghost function Load(rows: seq<Row>, side: Side, key: int -> int): seq<Maker> {
    if rows == [] then []
    else
      var r := rows[|rows| - 1];
      var q := Load(rows[..|rows| - 1], side, key);
      if Loaded(r) && r.side == side then Enqueue(Opposite(side), q, MakerOf(r, key)) else q
  }

  lemma {:induction false} BookedAppend(rows: seq<Row>, r: Row, side: Side, key: int -> int)
    ensures Booked(rows + [r], side, key) == Booked(rows, side, key) + Part(r, side, key)
  {
    if rows == [] {
      assert rows + [r] == [r];
      assert Booked([r][1..], side, key) == multiset{};
    } else {
      assert (rows + [r])[0] == rows[0] && (rows + [r])[1..] == rows[1..] + [r];
      BookedAppend(rows[1..], r, side, key);
    }
    hide Part;
  }

  /** Limit orders of one side that are still pending: they are loaded too, though nothing of them is in the book. */
  ghost function Waiting(rows: seq<Row>, side: Side, key: int -> int): multiset<Maker> {
    if rows == [] then multiset{} else Waiting(rows[..|rows| - 1], side, key) + WaitingPart(rows[|rows| - 1], side, key)
  }

  ghost function WaitingPart(r: Row, side: Side, key: int -> int): multiset<Maker> {
    if r.side == side && r.kind == LimitOrder && r.price.Some? && r.status == Pending then multiset{MakerOf(r, key)} else multiset{}
  }

  /** Loading a table gives the orders of the book, at every price, and the pending ones besides. */
  lemma {:induction false} LoadIsBooked(rows: seq<Row>, side: Side, key: int -> int)
    ensures multiset(Load(rows, side, key)) == Booked(rows, side, key) + Waiting(rows, side, key)
    ensures Priority(Opposite(side), Load(rows, side, key))
  {
    hide Enqueue, Priority, Booked, Part, WaitingPart, Load;
    if rows == [] {
      NothingLoaded(side, key);
    } else {
      var before, r := rows[..|rows| - 1], rows[|rows| - 1];
      assert rows == before + [r];
      LoadIsBooked(before, side, key);
      BookedAppend(before, r, side, key);
      LoadOne(rows, side, key);
      Regroup(Booked(before, side, key), Waiting(before, side, key), Part(r, side, key), WaitingPart(r, side, key));
    }
  }

  lemma {:induction false} LoadOne(rows: seq<Row>, side: Side, key: int -> int)
    requires rows != []
    ensures var before, r := rows[..|rows| - 1], rows[|rows| - 1];
            && multiset(Load(rows, side, key)) == multiset(Load(before, side, key)) + (Part(r, side, key) + WaitingPart(r, side, key))
            && (Priority(Opposite(side), Load(before, side, key)) ==> Priority(Opposite(side), Load(rows, side, key)))
  {
    hide Enqueue, Priority;
    var q, r := Load(rows[..|rows| - 1], side, key), rows[|rows| - 1];
    PartOrWaiting(r, side, key);
    hide Part, WaitingPart, Loaded;
    if Loaded(r) && r.side == side {
      EnqueueContents(Opposite(side), q, MakerOf(r, key));
      if Priority(Opposite(side), q) {
        EnqueueKeepsPriority(Opposite(side), q, MakerOf(r, key));
      }
    } else {
      assert multiset(q) + multiset{} == multiset(q);
    }
  }

  lemma {:induction false} PartOrWaiting(r: Row, side: Side, key: int -> int)
    ensures Loaded(r) ==> r.price.Some?
    ensures Part(r, side, key) + WaitingPart(r, side, key) == if Loaded(r) && r.side == side then multiset{MakerOf(r, key)} else multiset{}
  {
  }

  lemma {:induction false} Regroup(a: multiset<Maker>, b: multiset<Maker>, c: multiset<Maker>, d: multiset<Maker>)
    ensures a + b + (c + d) == a + c + (b + d)
  {
  }

  lemma {:induction false} NothingLoaded(side: Side, key: int -> int)
    ensures Booked([], side, key) + Waiting([], side, key) == multiset{}
    ensures Load([], side, key) == [] && Priority(Opposite(side), [])
  {
  }

  /** So loading restores the book exactly if no limit order of the side is pending. */
  lemma {:induction false} LoadRestoresIff(rows: seq<Row>, side: Side, key: int -> int)
    ensures multiset(Load(rows, side, key)) == Booked(rows, side, key)
       <==> forall r :: r in rows && r.side == side && r.kind == LimitOrder && r.price.Some? ==> r.status != Pending
  {
    LoadIsBooked(rows, side, key);
    NobodyWaits(rows, side, key);
    NothingMore(Booked(rows, side, key), Waiting(rows, side, key));
    hide Load, Booked, Waiting;
  }

  lemma {:induction false} NothingMore(a: multiset<Maker>, b: multiset<Maker>)
    ensures a + b == a <==> b == multiset{}
  {
    assert (a + b) - a == b;
    assert b == multiset{} ==> a + b == a;
    assert a - a == multiset{};
  }

  lemma {:induction false} NobodyWaits(rows: seq<Row>, side: Side, key: int -> int)
    ensures Waiting(rows, side, key) == multiset{} <==> forall r :: r in rows && r.side == side && r.kind == LimitOrder && r.price.Some? ==> r.status != Pending
  {
    if rows != [] {
      var before, r := rows[..|rows| - 1], rows[|rows| - 1];
      assert rows == before + [r];
      NobodyWaits(before, side, key);
      if r.side == side && r.kind == LimitOrder && r.price.Some? && r.status == Pending {
        assert MakerOf(r, key) in Waiting(rows, side, key);
      }
    }
  }

  /** The table may list its rows in any order. */
  lemma {:induction false} BookedIgnoresOrder(a: seq<Row>, b: seq<Row>, side: Side, key: int -> int)
    requires multiset(a) == multiset(b)
    ensures Booked(a, side, key) == Booked(b, side, key)
  {
    if a == [] {
      assert |b| == |multiset(b)|;
    } else {
      assert a[0] in multiset(b);
      var i :| 0 <= i < |b| && b[i] == a[0];
      assert b == b[..i] + [a[0]] + b[i + 1..];
      WithoutFirst(a, b, i);
      BookedAround(b[..i], a[0], b[i + 1..], side, key);
      BookedIgnoresOrder(a[1..], b[..i] + b[i + 1..], side, key);
    }
    hide Part;
  }

  /** An engine that starts again from its rows, listed in any order, has the resting orders it had before exactly if no
      limit order is pending. */
  lemma {:induction false} RebuildRestoresIff(rows: seq<Row>, table: seq<Row>, side: Side, key: int -> int, q: seq<Maker>)
    requires multiset(q) == Booked(rows, side, key) && multiset(table) == multiset(rows)
    ensures multiset(Load(table, side, key)) == multiset(q)
       <==> forall r :: r in rows && r.side == side && r.kind == LimitOrder && r.price.Some? ==> r.status != Pending
  {
    BookedIgnoresOrder(rows, table, side, key);
    LoadRestoresIff(table, side, key);
    SameMembers(rows, table);
    hide Load, Booked;
  }

  lemma {:induction false} SameMembers(a: seq<Row>, b: seq<Row>)
    requires multiset(a) == multiset(b)
    ensures forall r :: r in a <==> r in b
  {
    assert forall r :: r in a <==> r in multiset(a);
    assert forall r :: r in b <==> r in multiset(b);
  }

  // ---- and in which order

  /** The orders of one price, in the order of the list. */
  ghost function AtPrice(q: seq<Maker>, price: int): seq<Maker> {
    if q == [] then [] else (if q[0].price == price then [q[0]] else []) + AtPrice(q[1..], price)
  }

  /** At every price both lists have the same orders in the same order. */
  ghost predicate SameTurns(a: seq<Maker>, b: seq<Maker>) {
    forall p :: AtPrice(a, p) == AtPrice(b, p)
  }

  /** The loaded orders of one side, in the order of the table. */
  ghost function Listed(rows: seq<Row>, side: Side, key: int -> int): seq<Maker> {
    if rows == [] then []
    else
      var r := rows[|rows| - 1];
      Listed(rows[..|rows| - 1], side, key)
        + if r.side == side && r.kind == LimitOrder && r.price.Some? && r.status in {Pending, Open, PartlyFilled} then [MakerOf(r, key)] else []
  }

  lemma {:induction false} AtPriceAppend(q: seq<Maker>, m: Maker, price: int)
    ensures AtPrice(q + [m], price) == AtPrice(q, price) + if m.price == price then [m] else []
  {
    if q == [] {
      assert [] + [m] == [m] && AtPrice([m][1..], price) == [];
    } else {
      assert (q + [m])[0] == q[0] && (q + [m])[1..] == q[1..] + [m];
      AtPriceAppend(q[1..], m, price);
      Assoc(if q[0].price == price then [q[0]] else [], AtPrice(q[1..], price), if m.price == price then [m] else []);
    }
  }

  lemma {:induction false} NoneAtPrice(q: seq<Maker>, price: int)
    ensures AtPrice(q, price) == [] <==> forall i :: 0 <= i < |q| ==> q[i].price != price
  {
    if q != [] {
      NoneAtPrice(q[1..], price);
      assert forall i :: 0 < i < |q| ==> q[i] == q[1..][i - 1];
    }
  }

  /** A new order comes last among those of its price, and leaves the others in their order. */
  lemma {:induction false} EnqueueAtPrice(taker: Side, q: seq<Maker>, m: Maker, price: int)
    requires Priority(taker, q)
    ensures AtPrice(Enqueue(taker, q, m), price) == AtPrice(q, price) + if m.price == price then [m] else []
  {
    if q == [] || Better(taker, m.price, q[0].price) {
      assert ([m] + q)[1..] == q;
      NoneAtPrice(q, m.price);
    } else {
      var e := Enqueue(taker, q[1..], m);
      assert ([q[0]] + e)[1..] == e;
      EnqueueAtPrice(taker, q[1..], m, price);
    }
  }

  /** Two sorted lists are one if they agree at every price. */
  lemma {:induction false} SameAtEveryPrice(taker: Side, a: seq<Maker>, b: seq<Maker>)
    requires Priority(taker, a) && Priority(taker, b) && SameTurns(a, b)
    ensures a == b
  {
    NoneElse(a, b);
    NoneElse(b, a);
    if a != [] {
      SameFront(taker, a, b);
      forall p ensures AtPrice(a[1..], p) == AtPrice(b[1..], p) {
        assert AtPrice(a, p) == AtPrice(b, p);
        SameTail(if a[0].price == p then [a[0]] else [], AtPrice(a[1..], p), AtPrice(b[1..], p));
      }
      hide AtPrice;
      SameAtEveryPrice(taker, a[1..], b[1..]);
      assert a == [a[0]] + a[1..] && b == [b[0]] + b[1..];
    }
  }

  lemma {:induction false} NoneElse(a: seq<Maker>, b: seq<Maker>)
    requires SameTurns(a, b)
    ensures a != [] ==> b != []
  {
    if a != [] {
      assert AtPrice(a, a[0].price) == AtPrice(b, a[0].price) && AtPrice(a, a[0].price) != [];
    }
  }

  lemma {:induction false} SameTail(x: seq<Maker>, a: seq<Maker>, b: seq<Maker>)
    requires x + a == x + b
    ensures a == b
  {
    assert a == (x + a)[|x|..] && b == (x + b)[|x|..];
  }

  lemma {:induction false} SameFront(taker: Side, a: seq<Maker>, b: seq<Maker>)
    requires Priority(taker, a) && Priority(taker, b) && a != [] && b != [] && SameTurns(a, b)
    ensures a[0] == b[0]
  {
    var p, r := a[0].price, b[0].price;
    assert AtPrice(a, p) == AtPrice(b, p) && AtPrice(a, p) != [] && AtPrice(a, p)[0] == a[0];
    assert AtPrice(a, r) == AtPrice(b, r) && AtPrice(b, r) != [] && AtPrice(b, r)[0] == b[0];
    NoneAtPrice(b, p);
    NoneAtPrice(a, r);
  }

  /** Loading keeps, at every price, the order of the table. */
  lemma {:induction false} LoadIsStable(rows: seq<Row>, side: Side, key: int -> int, price: int)
    ensures AtPrice(Load(rows, side, key), price) == AtPrice(Listed(rows, side, key), price)
  {
    if rows != [] {
      var before, r := rows[..|rows| - 1], rows[|rows| - 1];
      LoadIsStable(before, side, key, price);
      LoadIsBooked(before, side, key);
      assert Listed(before, side, key) + [] == Listed(before, side, key);
      if Loaded(r) && r.side == side {
        EnqueueAtPrice(Opposite(side), Load(before, side, key), MakerOf(r, key), price);
        AtPriceAppend(Listed(before, side, key), MakerOf(r, key), price);
      }
      hide AtPrice, Enqueue, Booked, Waiting;
    }
  }

  /** Starting again restores the queue itself, with everyone's place in it, exactly if no limit order of the side is
      pending and the table lists the orders of each price in the order they queued. */
  lemma {:induction false} RebuildKeepsQueueIff(rows: seq<Row>, table: seq<Row>, side: Side, key: int -> int, q: seq<Maker>)
    requires multiset(q) == Booked(rows, side, key) && multiset(table) == multiset(rows) && Priority(Opposite(side), q)
    ensures Load(table, side, key) == q
       <==> && (forall r :: r in rows && r.side == side && r.kind == LimitOrder && r.price.Some? ==> r.status != Pending)
            && SameTurns(Listed(table, side, key), q)
  {
    hide AtPrice, Load, Listed, Priority, Booked;
    RebuildRestoresIff(rows, table, side, key, q);
    LoadIsBooked(table, side, key);
    var l := Load(table, side, key);
    forall p ensures AtPrice(l, p) == AtPrice(Listed(table, side, key), p) {
      LoadIsStable(table, side, key, p);
    }
    assert SameTurns(l, Listed(table, side, key));
    if SameTurns(Listed(table, side, key), q) {
      SameAtEveryPrice(Opposite(side), l, q);
    }
  }

  /** An input where it fails: the query that lists the table names no order, and of two orders of one price the later one
      may be listed, and then served, first. */
  lemma {:induction false} RebuildMayReorder()
    ensures var key := (p: int) => p;
            var r := Row("1", "ann", Buy, LimitOrder, Some(10), GTC, false, Open, 5, 0, 5);
            var s := r.(id := "2", user := "bob");
            && multiset([r, s]) == multiset([s, r])
            && Load([r, s], Buy, key) == [Maker("1", "ann", 10, 5), Maker("2", "bob", 10, 5)]
            && Load([s, r], Buy, key) == [Maker("2", "bob", 10, 5), Maker("1", "ann", 10, 5)]
  {
    var key := (p: int) => p;
    var r := Row("1", "ann", Buy, LimitOrder, Some(10), GTC, false, Open, 5, 0, 5);
    var s := r.(id := "2", user := "bob");
    LoadTwo(r, s, key);
    LoadTwo(s, r, key);
  }

  lemma {:induction false} LoadTwo(r: Row, s: Row, key: int -> int)
    requires Loaded(r) && Loaded(s) && r.side == s.side == Buy && r.price == s.price
    ensures Load([r, s], Buy, key) == [MakerOf(r, key), MakerOf(s, key)]
  {
    var m, n := MakerOf(r, key), MakerOf(s, key);
    assert [r, s][..1] == [r] && [r][..0] == [];
    assert Load([r], Buy, key) == Enqueue(Sell, [], m) == [m];
    assert Load([r, s], Buy, key) == Enqueue(Sell, [m], n) == [m] + Enqueue(Sell, [m][1..], n);
    assert Enqueue(Sell, [m][1..], n) == [n];
  }

  /** A pending row changes into one that does not rest: the list of resting orders stays. */
  lemma {:induction false} NotBooked(rows: seq<Row>, i: nat, r: Row, side: Side, key: int -> int)
    requires i < |rows| && !IsResting(rows[i]) && !IsResting(r)
    ensures Booked(rows[i := r], side, key) == Booked(rows, side, key)
  {
    BookedUpdate(rows, i, r, side, key);
    hide Booked, Others;
  }

  /** A pending row comes to rest. */
  lemma {:induction false} NowBooked(rows: seq<Row>, i: nat, r: Row, side: Side, key: int -> int)
    requires i < |rows| && !IsResting(rows[i]) && IsResting(r)
    ensures Booked(rows[i := r], side, key) == Booked(rows, side, key) + if r.side == side then multiset{MakerOf(r, key)} else multiset{}
  {
    BookedUpdate(rows, i, r, side, key);
    var o := Others(rows, i, side, key);
    assert o + multiset{} == o;
    hide Booked, Others;
  }

  lemma {:induction false} SoundUpdate(rows: seq<Row>, i: nat, r: Row)
    requires RowsSound(rows) && i < |rows| && RowOk(r) && r.id == rows[i].id
    ensures RowsSound(rows[i := r])
  {
  }

  /** No order of the list has the id of a row that does not rest. */
  lemma {:induction false} PendingNotListed(rows: seq<Row>, i: nat, side: Side, key: int -> int, q: seq<Maker>, k: nat)
    requires RowsSound(rows) && i < |rows| && !IsResting(rows[i]) && Booked(rows, side, key) == multiset(q) && k < |q|
    ensures q[k].id != rows[i].id
  {
    assert q[k] in multiset(q);
    var j := BookedHas(rows, side, key, q[k]);
    hide Booked;
  }
}
