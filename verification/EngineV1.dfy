/** The first engine: order rows kept in step with the book. */
module EngineV1 {
  import opened SortedEntries
  import opened ReferenceBook
  import opened PriorityLists
  import opened EngineModel
  import opened RowsV1
  import opened Ladders
  import OL = OrderLevels
  import opened BookSideV1
  import opened BookV1
  import T = BPlusTree
  import W = Walks
  import R = BPlusRuns

  ghost const KEY: int -> int := p => PriceToBigint(p)

  /** Writes one maker's row. */
  method WriteMaker(rows0: seq<Row>, m: V1Match, ghost side: Side, ghost q: seq<Maker>, ghost fs: seq<MatchResult>)
    returns (rows: seq<Row>, ghost q': seq<Maker>)
    requires RowsSound(rows0) && Booked(rows0, side, KEY) == multiset(q) && FromFront(q, fs) && fs != [] && fs[0] == Plain(m)
    ensures RowsSound(rows) && OnlyMakers(rows0, rows, side) && Booked(rows, side, KEY) == multiset(q')
    ensures FromFront(q', fs[1..]) && Served(q', fs[1..]) == Served(q, fs)
    ensures forall s :: FilledOn(rows, s) == FilledOn(rows0, s) + if s == side then m.quantity else 0
    ensures forall s :: s != side ==> Booked(rows, s, KEY) == Booked(rows0, s, KEY)
  {
    hide FromFront, Served, Booked, FilledOn;
    MakerHasRow(rows0, side, KEY, q, fs);
    ServeOne(q, fs);
    var i := RowAt(rows0, m.makerOrderId);
    var r := MakerRow(rows0[i], m.makerRemainingBefore, m.quantity);
    FillsRow(rows0, side, KEY, q, i, m.quantity);
    FilledUpdate(rows0, i, r, Buy);
    FilledUpdate(rows0, i, r, Sell);
    BookedUpdate(rows0, i, r, Opposite(side), KEY);
    hide Others;
    q' := if m.quantity == q[0].qty then q[1..] else [q[0].(qty := q[0].qty - m.quantity)] + q[1..];
    rows := rows0[i := r];
  }

  /** Writes the makers' rows, one match at a time. */
  method WriteMakers(rows0: seq<Row>, matches: seq<V1Match>, ghost side: Side, ghost q0: seq<Maker>)
    returns (rows: seq<Row>, filled: int)
    requires RowsSound(rows0) && Booked(rows0, side, KEY) == multiset(q0) && FromFront(q0, PlainAll(matches))
    ensures RowsSound(rows) && OnlyMakers(rows0, rows, side)
    ensures Booked(rows, side, KEY) == multiset(Served(q0, PlainAll(matches)))
    ensures filled == FilledQty(PlainAll(matches))
    ensures forall s :: FilledOn(rows, s) == FilledOn(rows0, s) + if s == side then filled else 0
    ensures forall s :: s != side ==> Booked(rows, s, KEY) == Booked(rows0, s, KEY)
  {
    hide FromFront, Served, Booked, FilledOn, FilledQty, PlainAll, Plain, RowsSound, OnlyMakers, IsResting;
    ghost var q, fs := q0, PlainAll(matches);
    rows, filled := rows0, 0;
    assert fs[0..] == fs && fs[..0] == [];
    Untouched(rows, side);
    for k := 0 to |matches|
      invariant RowsSound(rows) && OnlyMakers(rows0, rows, side)
      invariant FromFront(q, fs[k..]) && Served(q, fs[k..]) == Served(q0, fs) && Booked(rows, side, KEY) == multiset(q)
      invariant filled == FilledQty(fs[..k])
      invariant forall s :: FilledOn(rows, s) == FilledOn(rows0, s) + if s == side then filled else 0
      invariant forall s :: s != side ==> Booked(rows, s, KEY) == Booked(rows0, s, KEY)
    {
      ghost var was := rows;
      assert fs[k..][0] == fs[k] && fs[k..][1..] == fs[k + 1..] && fs[..k + 1] == fs[..k] + [fs[k]];
      FilledSoFar(fs[..k], matches[k]);
      rows, q := WriteMaker(rows, matches[k], side, q, fs[k..]);
      OnlyMakersTwice(rows0, was, rows, side);
      filled := filled + matches[k].quantity;
    }
    assert fs[|matches|..] == [] && fs[..|matches|] == fs;
    NothingMore(q);
  }

  lemma {:induction false} Untouched(rows: seq<Row>, side: Side)
    ensures OnlyMakers(rows, rows, side) && FilledQty([]) == 0
  {
  }

  lemma {:induction false} NothingMore(q: seq<Maker>)
    ensures FromFront(q, []) && Served(q, []) == q
  {
  }

  lemma {:induction false} FilledSoFar(fs: seq<MatchResult>, m: V1Match)
    ensures FilledQty(fs + [Plain(m)]) == FilledQty(fs) + m.quantity
  {
    ReferenceBook.FilledAppend(fs, Plain(m));
  }

  lemma {:induction false} OnlyMakersTwice(a: seq<Row>, b: seq<Row>, c: seq<Row>, side: Side)
    requires OnlyMakers(a, b, side) && OnlyMakers(b, c, side)
    ensures OnlyMakers(a, c, side)
  {
  }

  /** The two sides hold what the rows say: own the orders of this side, facing those of the other. */
  ghost predicate InStep(own: OrderBookSide, facing: OrderBookSide, side: Side, rows: seq<Row>)
    requires own.Valid() && facing.Valid()
    reads own, own.priceTree, own.priceTree.repr, own.Levels(), own.Orders()
    reads facing, facing.priceTree, facing.priceTree.repr, facing.Levels(), facing.Orders()
  {
    multiset(own.Queue()) == Booked(rows, side, KEY) && multiset(facing.Queue()) == Booked(rows, Opposite(side), KEY)
  }

  ghost predicate SidesOk(own: OrderBookSide, facing: OrderBookSide, side: Side)
    reads own, own.priceTree, own.priceTree.repr, own.Levels(), own.Orders()
    reads facing, facing.priceTree, facing.priceTree.repr, facing.Levels(), facing.Orders()
  {
    && own.Valid() && facing.Valid() && Apart(own, facing) && Apart(facing, own)
    && facing.taker == side && own.taker == Opposite(side)
  }

  /** The order of a pending row is not in the book yet. */
  lemma {:induction false} NotInBook(own: OrderBookSide, side: Side, rows: seq<Row>, i: nat)
    requires own.Valid() && RowsSound(rows) && i < |rows| && !IsResting(rows[i])
    requires multiset(own.Queue()) == Booked(rows, side, KEY)
    ensures rows[i].id !in own.orderMap
  {
    if rows[i].id in own.orderMap {
      var n := own.orderMap[rows[i].id];
      var c := NodesOf(own.ladder);
      OL.MakersAt(c);
      var k :| 0 <= k < |c| && c[k] == n;
      PendingNotListed(rows, i, side, KEY, own.Queue(), k);
    }
  }

  /** The row of an order that has been dealt with. */
  lemma {:induction false} RowDone(rows0: seq<Row>, rows: seq<Row>, i: nat, r: Row, taken: int)
    requires RowsOk(rows0) && RowsSound(rows) && i < |rows| == |rows0| && rows[i] == rows0[i] && rows[i].status == Pending
    requires RowOk(r) && r.id == rows[i].id && r.side == rows[i].side && r.filled == taken
    requires forall s :: FilledOn(rows, s) == FilledOn(rows0, s) + if s == Opposite(r.side) then taken else 0
    ensures RowsOk(rows[i := r])
  {
    SoundUpdate(rows, i, r);
    FilledUpdate(rows, i, r, Buy);
    FilledUpdate(rows, i, r, Sell);
    hide RowsSound, FilledOn;
  }

  /** The state one order is worked on in. */
  ghost predicate Ready(own: OrderBookSide, facing: OrderBookSide, o: Row, rows: seq<Row>, i: nat)
    reads own, own.priceTree, own.priceTree.repr, own.Levels(), own.Orders()
    reads facing, facing.priceTree, facing.priceTree.repr, facing.Levels(), facing.Orders()
  {
    && SidesOk(own, facing, o.side) && RowsOk(rows) && InStep(own, facing, o.side, rows)
    && i < |rows| && rows[i] == o && o.status == Pending && o.kind == LimitOrder && o.price.Some?
  }

  /** The order has been dealt with: only it and makers it traded with have changed, and what can no longer trade is paid back. */
  ghost predicate Worked(o: Row, rows0: seq<Row>, rows: seq<Row>, i: nat, released: int) {
    && o.price.Some? && i < |rows| == |rows0| && rows[i].status != Pending && (rows[i].status == FilledUp <==> rows[i].remaining == 0)
    && rows[i] == o.(status := rows[i].status, filled := rows[i].filled, remaining := rows[i].remaining)
    && OnlyMakers(rows0[..i] + rows0[i + 1..], rows[..i] + rows[i + 1..], Opposite(o.side))
    && released == if rows[i].status != RejectedRow && rows[i].status != Cancelled then 0
                   else if o.side == Buy then o.price.value * rows[i].remaining
                   else rows[i].remaining
  }

  ghost predicate Done(own: OrderBookSide, facing: OrderBookSide, o: Row, rows0: seq<Row>, rows: seq<Row>, i: nat, released: int)
    reads own, own.priceTree, own.priceTree.repr, own.Levels(), own.Orders()
    reads facing, facing.priceTree, facing.priceTree.repr, facing.Levels(), facing.Orders()
  {
    SidesOk(own, facing, o.side) && RowsOk(rows) && InStep(own, facing, o.side, rows) && Worked(o, rows0, rows, i, released)
  }

  // ---- what becomes of an order

  /** The order as the book model takes it, priced by its key; the post-only look ahead is made before. */
  ghost function OrderOf(o: Row): Order
    requires o.price.Some?
  {
    Order(o.id, o.user, "", o.side, LimitOrder, PriceToBigint(o.price.value), o.remaining, o.tif, false, None)
  }

  /** The row of an order the book model answers in this way: a partly filled order that does not rest is cancelled. */
  ghost function RowAfter(o: Row, out: Outcome): Row {
    match out
    case Accepted => o.(status := Open)
    case Rejected => o.(status := RejectedRow)
    case Filled(ms) => Taken(o, FilledQty(ms), if FilledQty(ms) == o.remaining then FilledUp else Cancelled)
    case PartiallyFilled(ms, _) => Taken(o, FilledQty(ms), PartlyFilled)
  }

  function Taken(o: Row, filled: int, status: Status): Row {
    o.(remaining := o.remaining - filled, filled := filled, status := status)
  }

  ghost function BookOf(own: OrderBookSide, facing: OrderBookSide, side: Side): Book
    requires own.Valid() && facing.Valid()
    reads own, own.priceTree, own.priceTree.repr, own.Levels(), own.Orders()
    reads facing, facing.priceTree, facing.priceTree.repr, facing.Levels(), facing.Orders()
  {
    if side == Buy then Book(own.Queue(), facing.Queue()) else Book(facing.Queue(), own.Queue())
  }

  /** Book and row follow the book model, unless the order was refused for being post-only. */
  ghost predicate Answers(o: Row, refused: bool, b: Book, b': Book, r: Row) {
    && o.price.Some?
    && if refused then b' == b && r == RowAfter(o, Rejected)
       else b' == Process(b, OrderOf(o)).0 && r == RowAfter(o, Process(b, OrderOf(o)).1)
  }

  /** An order is turned away whole. */
  lemma {:induction false} TurnedAway(own: OrderBookSide, facing: OrderBookSide, o: Row, rows0: seq<Row>, i: nat)
    requires Ready(own, facing, o, rows0, i)
    ensures Done(own, facing, o, rows0, rows0[i := o.(status := RejectedRow)], i, if o.side == Buy then o.price.value * o.remaining else o.remaining)
  {
    hide Booked, OnlyMakers, FilledOn, RowsSound;
    hide OrderBookSide.Valid;
    var r := o.(status := RejectedRow);
    PendingWants(rows0, i);
    SoundAt(rows0, i);
    NotBooked(rows0, i, r, Buy, KEY);
    NotBooked(rows0, i, r, Sell, KEY);
    RowDone(rows0, rows0, i, r, 0);
    RestUnchanged(rows0, i, r, o.side);
  }

  lemma {:induction false} RestUnchanged(rows: seq<Row>, i: nat, r: Row, side: Side)
    requires i < |rows|
    ensures OnlyMakers(rows[..i] + rows[i + 1..], rows[i := r][..i] + rows[i := r][i + 1..], Opposite(side))
  {
    assert rows[..i] + rows[i + 1..] == rows[i := r][..i] + rows[i := r][i + 1..];
    Untouched(rows[..i] + rows[i + 1..], Opposite(side));
  }

  /** The order, or what is left of it, comes to rest. */
  method PutToRest(own: OrderBookSide, facing: OrderBookSide, o: Row, rows: seq<Row>, i: nat, r: Row)
    requires SidesOk(own, facing, o.side) && RowsSound(rows) && InStep(own, facing, o.side, rows)
    requires i < |rows| && !IsResting(rows[i]) && rows[i].id == o.id && o.price.Some?
    requires IsResting(r) && RowOk(r) && r == o.(status := r.status, filled := r.filled, remaining := r.remaining)
    modifies own, own.priceTree, own.priceTree.repr, own.Levels(), own.Orders()
    ensures SidesOk(own, facing, o.side) && InStep(own, facing, o.side, rows[i := r]) && facing.Queue() == old(facing.Queue())
    ensures own.Queue() == Enqueue(own.taker, old(own.Queue()), MakerOf(r, KEY))
    ensures Grown(own) && Grown(facing)
    ensures Widened(own) && Widened(facing)
    ensures Same(facing)
  {
    hide OrderBookSide.Indexed, OrderBookSide.TreeOk, AllValid, CountEmpty, OrderBookSide.Leads, OrderBookSide.Wanting,
      NodesOf, OL.Makers;
    hide Booked, Enqueue, PriceToBigint, OrderBookSide.WidensFrom, OrderBookSide.IsFlat;
    NotInBook(own, o.side, rows, i);
    NowBooked(rows, i, r, Buy, KEY);
    NowBooked(rows, i, r, Sell, KEY);
    EnqueueContents(own.taker, own.Queue(), MakerOf(r, KEY));
    AddTo(own, facing, BookOrder(o.id, o.user, o.side, o.price.value, r.remaining));
    facing.AsWide();
    ApartBoth(own, facing);
  }

  lemma {:induction false} ApartBoth(a: OrderBookSide, b: OrderBookSide)
    requires Apart(a, b)
    ensures Apart(b, a)
  {
  }

  /** Deals with a pending limit order. */
  method Execute(own: OrderBookSide, facing: OrderBookSide, o: Row, rows0: seq<Row>, i: nat)
    returns (rows: seq<Row>, released: int, ghost refused: bool)
    requires Ready(own, facing, o, rows0, i) && o.price.Some? && facing.Valid() && ClearFor(facing, o)
    modifies own, own.priceTree, own.priceTree.repr, own.Levels(), own.Orders()
    modifies facing, facing.priceTree, facing.priceTree.repr, facing.Levels(), facing.Orders()
    ensures Done(own, facing, o, rows0, rows, i, released)
    ensures Answers(o, refused, old(BookOf(own, facing, o.side)), BookOf(own, facing, o.side), rows[i])
    ensures RefusedIf(o, refused, old(Shown(facing)), old(facing.Blind()))
    ensures Grown(own) && Grown(facing)
    ensures Widened(own) && Widened(facing)
  {
    hide Ready, Done, Answers, BookOf, Refuses, Shown, ClearFor, PriceToBigint, W.CourseOf;
    hide OrderBookSide.Valid, OrderBookSide.LookedAt, OrderBookSide.Blind, OrderBookSide.Clear, OrderBookSide.Queue,
      OrderBookSide.WidensFrom, OrderBookSide.IsFlat;
    refused := false;
    PricedRow(own, facing, o, rows0, i);
    ClearMeans(facing, o);
    if o.postOnly {
      ghost var t, q := facing.LookedAt(), OL.Makers(NodesOf(facing.ladder));
      var crosses := LookAhead(own, facing, o, rows0, i);
      if crosses {
        refused := true;
        own.AsWide();
        facing.AsWide();
        facing.Wider(facing.priceMap.Keys, facing.IsFlat(), old(facing.priceMap.Keys), old(facing.IsFlat()));
        TurnedAway(own, facing, o, rows0, i);
        RefusedAnswers(o, BookOf(own, facing, o.side));
        rows, released := rows0[i := o.(status := RejectedRow)], if o.side == Buy then o.price.value * o.remaining else o.remaining;
        return;
      }
      NowClear(facing, o, t, q);
    }
    ghost var keys, flat := facing.priceMap.Keys, facing.IsFlat();
    rows, released := Trade(own, facing, o, rows0, i);
    facing.Wider(keys, flat, old(facing.priceMap.Keys), old(facing.IsFlat()));
  }

  lemma {:induction false} RefusedAnswers(o: Row, b: Book)
    requires o.price.Some?
    ensures Answers(o, true, b, b, o.(status := RejectedRow))
  {
  }

  function Offer(o: Row): BookOrder
    requires o.price.Some?
  {
    BookOrder(o.id, o.user, o.side, o.price.value, o.remaining)
  }

  /** A post-only order that reaches the best price is refused, unless the look ahead cannot see that price; no other is. */
  ghost predicate RefusedIf(o: Row, refused: bool, best: Option<int>, blind: bool)
    requires o.price.Some?
  {
    refused <==> o.postOnly && Refuses(Offer(o), best) && !blind
  }

  /** Whether the order is turned away or its way through the index is clear, after the look ahead if it is post-only. */
  ghost predicate ClearFor(facing: OrderBookSide, o: Row)
    requires facing.Valid() && o.price.Some?
    reads facing, facing.priceTree, facing.priceTree.repr, facing.Levels(), facing.Orders()
  {
    facing.TreeIsValid();
    var t := if o.postOnly then facing.LookedAt() else facing.priceTree.tree;
    var c := W.CourseOf(facing.taker, t, facing.priceTree.order, facing.Queue(), PriceToBigint(o.price.value), o.remaining);
    (o.postOnly && Refuses(Offer(o), Shown(facing)) && !facing.Blind()) || (c.ends && c.straight)
  }

  ghost predicate ClearFrom(facing: OrderBookSide, t: R.Root<OL.PriceLevel>, q: seq<Maker>, o: Row)
    requires o.price.Some?
  {
    && facing.priceTree.order >= 2 && R.Good(t, facing.priceTree.order)
    && var c := W.CourseOf(facing.taker, t, facing.priceTree.order, q, PriceToBigint(o.price.value), o.remaining); c.ends && c.straight
  }

  lemma {:induction false} ClearMeans(facing: OrderBookSide, o: Row)
    requires facing.Valid() && o.price.Some? && ClearFor(facing, o)
    ensures !o.postOnly ==> facing.Clear(PriceToBigint(o.price.value), o.remaining)
    ensures o.postOnly && !(Refuses(Offer(o), Shown(facing)) && !facing.Blind()) ==> ClearFrom(facing, facing.LookedAt(), OL.Makers(NodesOf(facing.ladder)), o)
  {
    hide OrderBookSide.Shaped, OrderBookSide.LookedAt, OrderBookSide.Blind, Refuses, Shown, PriceToBigint, W.CourseOf, R.Good;
    facing.TreeIsValid();
  }

  /** It is enough that dropping the empty levels disturbs no walk. */
  lemma {:induction false} UndisturbedIsClearFor(facing: OrderBookSide, o: Row)
    requires facing.Valid() && o.price.Some? && facing.Undisturbed()
    ensures ClearFor(facing, o)
  {
    hide OrderBookSide.Indexed, OrderBookSide.TreeOk, AllValid, NodesOf, OL.Makers, R.Good, W.CourseOf,
      OrderBookSide.LookedAt, OrderBookSide.Blind;
    hide OrderBookSide.Undisturbed, Refuses, Shown, PriceToBigint;
    facing.TreeIsValid();
    facing.UndisturbedIsClear(PriceToBigint(o.price.value), o.remaining);
    facing.UndisturbedAfterLook(PriceToBigint(o.price.value), o.remaining);
  }

  lemma {:induction false} NowClear(facing: OrderBookSide, o: Row, t: R.Root<OL.PriceLevel>, q: seq<Maker>)
    requires facing.Valid() && o.price.Some? && facing.priceTree.tree == t && OL.Makers(NodesOf(facing.ladder)) == q && ClearFrom(facing, t, q, o)
    ensures facing.Clear(PriceToBigint(o.price.value), o.remaining)
  {
    hide OrderBookSide.Shaped, PriceToBigint, W.CourseOf, R.Good;
  }

  lemma {:induction false} PricedRow(own: OrderBookSide, facing: OrderBookSide, o: Row, rows: seq<Row>, i: nat)
    requires Ready(own, facing, o, rows, i)
    ensures RowsOk(rows) && i < |rows| && rows[i] == o && o.status == Pending && o.kind == LimitOrder && o.price.Some?
    ensures own.Valid() && facing.Valid()
  {
    hide OrderBookSide.Valid, RowsOk, InStep;
  }

  /** Trades as far as the other side allows; what is left rests, or is turned away or cancelled. */
  method Trade(own: OrderBookSide, facing: OrderBookSide, o: Row, rows0: seq<Row>, i: nat) returns (rows: seq<Row>, released: int)
    requires Ready(own, facing, o, rows0, i) && o.price.Some? && facing.Valid() && facing.Clear(PriceToBigint(o.price.value), o.remaining)
    modifies own, own.priceTree, own.priceTree.repr, own.Levels(), own.Orders()
    modifies facing, facing.priceTree, facing.priceTree.repr, facing.Levels(), facing.Orders()
    ensures Done(own, facing, o, rows0, rows, i, released)
    ensures Answers(o, false, old(BookOf(own, facing, o.side)), BookOf(own, facing, o.side), rows[i])
    ensures Grown(own) && Grown(facing)
    ensures Widened(own) && Widened(facing)
  {
    hide Ready, Done, Fillable, Fills, Rest, PlainAll, Served, Answers, BookOf, PriceToBigint;
    hide OrderBookSide.Levels, OrderBookSide.Orders, OrderBookSide.Clear;
    hide OrderBookSide.Valid, OrderBookSide.WidensFrom, OrderBookSide.IsFlat;
    PricedRow(own, facing, o, rows0, i);
    ghost var b := BookOf(own, facing, o.side);
    SidesOfBook(own, facing, o, rows0, i);
    var matches := FindMatches(own, facing, o, rows0, i);
    SidesOfBook(own, facing, o, rows0, i);
    ghost var keys, flat := facing.priceMap.Keys, facing.IsFlat();
    if matches == [] {
      rows, released := TradeNone(own, facing, o, rows0, i);
    } else {
      rows, released := TradeSome(own, facing, o, rows0, i, matches);
    }
    facing.Wider(keys, flat, old(facing.priceMap.Keys), old(facing.IsFlat()));
  }

  /** What the order asks of the other side. */
  ghost function Asked(o: Row, q: seq<Maker>): seq<MatchResult>
    requires o.price.Some?
  {
    Fills(o.side, Some(PriceToBigint(o.price.value)), q, o.remaining)
  }

  ghost function Left(o: Row, q: seq<Maker>): seq<Maker>
    requires o.price.Some?
  {
    Rest(o.side, Some(PriceToBigint(o.price.value)), q, o.remaining)
  }

  method TradeNone(own: OrderBookSide, facing: OrderBookSide, o: Row, rows0: seq<Row>, i: nat)
    returns (rows: seq<Row>, released: int)
    requires Ready(own, facing, o, rows0, i) && Asked(o, facing.Queue()) == [] && Left(o, facing.Queue()) == facing.Queue()
    modifies own, own.priceTree, own.priceTree.repr, own.Levels(), own.Orders()
    ensures Done(own, facing, o, rows0, rows, i, released)
    ensures Answers(o, false, old(BookOf(own, facing, o.side)), BookOf(own, facing, o.side), rows[i])
    ensures Grown(own) && Grown(facing)
    ensures Widened(own) && Widened(facing)
    ensures Same(facing)
  {
    hide Ready, Done, Asked, Left, Answers, BookOf, SidesOk, Enqueue, OnlyMakers;
    hide OrderBookSide.Valid, OrderBookSide.WidensFrom, OrderBookSide.IsFlat;
    SidesOfBook(own, facing, o, rows0, i);
    PricedRow(own, facing, o, rows0, i);
    if o.tif == IOC || o.tif == FOK {
      rows, released := rows0[i := o.(status := RejectedRow)], if o.side == Buy then o.price.value * o.remaining else o.remaining;
      TurnedAway(own, facing, o, rows0, i);
      own.AsWide();
      facing.AsWide();
    } else {
      rows, released := rows0[i := o.(status := Open)], 0;
      RestWhole(own, facing, o, rows0, i);
    }
    TakersOf(own, facing, o.side);
    Concluded(own, facing, o, old(BookOf(own, facing, o.side)), [], rows[i]);
  }

  method TradeSome(own: OrderBookSide, facing: OrderBookSide, o: Row, rows0: seq<Row>, i: nat, matches: seq<V1Match>)
    returns (rows: seq<Row>, released: int)
    requires Ready(own, facing, o, rows0, i) && Fillable(facing, o, matches) && matches != []
    requires PlainAll(matches) == Asked(o, facing.Queue()) && Served(facing.Queue(), PlainAll(matches)) == Left(o, facing.Queue())
    modifies own, own.priceTree, own.priceTree.repr, own.Levels(), own.Orders()
    modifies facing, facing.priceTree, facing.priceTree.repr, facing.Levels(), facing.Orders()
    ensures Done(own, facing, o, rows0, rows, i, released)
    ensures Answers(o, false, old(BookOf(own, facing, o.side)), BookOf(own, facing, o.side), rows[i])
    ensures Grown(own) && Grown(facing)
    ensures Widened(own) && Widened(facing)
  {
    hide Ready, Done, Fillable, Asked, Left, PlainAll, Served, Answers, BookOf, SidesOk, InStep, Enqueue, RowsOk, RowsSound,
      OnlyMakers;
    hide FilledOn, FilledQty, OrderBookSide.Levels, OrderBookSide.Orders;
    hide OrderBookSide.Valid, OrderBookSide.WidensFrom, OrderBookSide.IsFlat;
    SidesOfBook(own, facing, o, rows0, i);
    PricedRow(own, facing, o, rows0, i);
    var filled;
    rows, filled := FillMakers(own, facing, o, rows0, i, matches);
    ghost var keys, flat := facing.priceMap.Keys, facing.IsFlat();
    rows, released := Finish(own, facing, o, rows0, rows, i, filled);
    facing.Wider(keys, flat, old(facing.priceMap.Keys), old(facing.IsFlat()));
    TakersOf(own, facing, o.side);
    Concluded(own, facing, o, old(BookOf(own, facing, o.side)), PlainAll(matches), rows[i]);
  }

  lemma {:induction false} SidesOfBook(own: OrderBookSide, facing: OrderBookSide, o: Row, rows: seq<Row>, i: nat)
    requires Ready(own, facing, o, rows, i)
    ensures SidesOk(own, facing, o.side) && own.Valid() && facing.Valid() && own.taker == Opposite(o.side) && o.remaining > 0
    ensures var b := BookOf(own, facing, o.side); Facing(b, o.side) == facing.Queue() && Facing(b, Opposite(o.side)) == own.Queue()
    ensures BookOf(own, facing, o.side) == if o.side == Buy then Book(own.Queue(), facing.Queue()) else Book(facing.Queue(), own.Queue())
  {
    PendingWants(rows, i);
    hide OrderBookSide.Valid, RowsOk, InStep;
  }

  /** The order's row as the engine writes it after these fills. */
  ghost function RowFor(o: Row, fs: seq<MatchResult>): Row {
    if fs == [] then o.(status := if o.tif == GTC then Open else RejectedRow)
    else Taken(o, FilledQty(fs), if FilledQty(fs) == o.remaining then FilledUp else if o.tif == GTC then PartlyFilled else Cancelled)
  }

  lemma {:induction false} Concluded(own: OrderBookSide, facing: OrderBookSide, o: Row, b: Book, fs: seq<MatchResult>, r: Row)
    requires own.Valid() && facing.Valid() && o.price.Some? && o.kind == LimitOrder && r == RowFor(o, fs)
    requires fs == Asked(o, Facing(b, o.side)) && facing.Queue() == Left(o, Facing(b, o.side))
    requires var w := Facing(b, Opposite(o.side));
             own.Queue() == if r.status == Open || r.status == PartlyFilled then Enqueue(Opposite(o.side), w, MakerOf(r, KEY)) else w
    ensures Answers(o, false, b, BookOf(own, facing, o.side), r)
  {
    hide Fills, Rest, FilledQty, Enqueue, PriceToBigint, OrderBookSide.Valid;
    assert Trades(b, OrderOf(o)) == fs;
  }

  /** The matches are what the reference fill gives the order, about the orders at the front. */
  ghost predicate Fillable(facing: OrderBookSide, o: Row, matches: seq<V1Match>)
    requires facing.Valid()
    reads facing, facing.priceTree, facing.priceTree.repr, facing.Levels(), facing.Orders()
  {
    && FromFront(facing.Queue(), PlainAll(matches)) && OrderBookSide.Aligned(matches, NodesOf(facing.ladder))
    && 0 <= FilledQty(PlainAll(matches)) <= o.remaining && (matches != [] ==> FilledQty(PlainAll(matches)) > 0)
  }

  method FindMatches(own: OrderBookSide, facing: OrderBookSide, o: Row, ghost rows0: seq<Row>, ghost i: nat) returns (matches: seq<V1Match>)
    requires Ready(own, facing, o, rows0, i) && o.price.Some? && facing.Valid() && facing.Clear(PriceToBigint(o.price.value), o.remaining)
    modifies facing`priceMap, facing`priceKeys, facing`ladder, facing`emptyLevelCount, facing.priceTree, facing.priceTree.repr
    ensures Ready(own, facing, o, rows0, i) && Fillable(facing, o, matches)
    ensures facing.Queue() == old(facing.Queue()) && own.Queue() == old(own.Queue())
    ensures PlainAll(matches) == Asked(o, facing.Queue()) && Served(facing.Queue(), PlainAll(matches)) == Left(o, facing.Queue())
    ensures matches == [] ==> Left(o, facing.Queue()) == facing.Queue() && Asked(o, facing.Queue()) == []
    ensures facing.Levels() <= old(facing.Levels()) && facing.Orders() == old(facing.Orders()) && facing.priceTree.repr == old(facing.priceTree.repr)
    ensures own.Levels() == old(own.Levels()) && own.Orders() == old(own.Orders()) && own.priceTree.repr == old(own.priceTree.repr)
    ensures facing.Slims() && Same(own)
  {
    hide OrderBookSide.Indexed, OrderBookSide.TreeOk, AllValid, CountEmpty, OrderBookSide.Leads, OrderBookSide.Wanting,
      NodesOf, OL.Makers;
    hide Booked, RowsOk, Fills, Rest, Served, FilledQty, FromFront, PlainAll, OrderBookSide.Aligned, PriceToBigint;
    PendingWants(rows0, i);
    QueueWants(facing);
    FillsConserve(o.side, Some(PriceToBigint(o.price.value)), facing.Queue(), o.remaining);
    matches := MatchFor(facing, own, PriceToBigint(o.price.value), o.remaining);
    SomethingFilled(facing.Queue(), PlainAll(matches));
    NothingMore(facing.Queue());
    ApartBoth(facing, own);
  }

  lemma {:induction false} TakersOf(own: OrderBookSide, facing: OrderBookSide, side: Side)
    requires SidesOk(own, facing, side)
    ensures own.taker == Opposite(side) && own.Valid() && facing.Valid()
  {
    hide OrderBookSide.Valid;
  }

  lemma {:induction false} PendingSound(rows: seq<Row>, i: nat)
    requires RowsOk(rows) && i < |rows| && rows[i].status == Pending && rows[i].kind == LimitOrder && rows[i].price.Some?
    ensures RowsSound(rows) && !IsResting(rows[i])
    ensures var r := rows[i].(status := Open); RowOk(r) && IsResting(r)
    ensures forall s :: FilledOn(rows, s) == FilledOn(rows, s) + if s == Opposite(rows[i].side) then rows[i].filled else 0
  {
    PendingWants(rows, i);
    hide FilledOn;
  }

  lemma {:induction false} PendingWants(rows: seq<Row>, i: nat)
    requires RowsOk(rows) && i < |rows| && rows[i].status == Pending
    ensures rows[i].remaining > 0 && rows[i].filled == 0
  {
  }

  lemma {:induction false} SomethingFilled(q: seq<Maker>, fs: seq<MatchResult>)
    requires FromFront(q, fs)
    ensures FilledQty(fs) >= 0 && (fs != [] ==> FilledQty(fs) > 0)
  {
    if fs != [] {
      SomethingFilled(q[1..], fs[1..]);
    }
  }

  method RestWhole(own: OrderBookSide, facing: OrderBookSide, o: Row, rows0: seq<Row>, i: nat)
    requires Ready(own, facing, o, rows0, i)
    modifies own, own.priceTree, own.priceTree.repr, own.Levels(), own.Orders()
    ensures Done(own, facing, o, rows0, rows0[i := o.(status := Open)], i, 0) && SidesOk(own, facing, o.side)
    ensures facing.Queue() == old(facing.Queue())
    ensures own.Queue() == Enqueue(Opposite(o.side), old(own.Queue()), MakerOf(o.(status := Open), KEY))
    ensures Grown(own) && Grown(facing)
    ensures Widened(own) && Widened(facing)
    ensures Same(facing)
  {
    hide OrderBookSide.WidensFrom, OrderBookSide.IsFlat, OrderBookSide.Shaped, SidesOk, InStep, OnlyMakers, FilledOn, Enqueue, RowsOk;
    var r := o.(status := Open);
    SidesOfBook(own, facing, o, rows0, i);
    PendingSound(rows0, i);
    PutToRest(own, facing, o, rows0, i, r);
    RowDone(rows0, rows0, i, r, 0);
    RestUnchanged(rows0, i, r, o.side);
  }

  /** The look ahead of a post-only order, which may drop empty levels. */
  method LookAhead(own: OrderBookSide, facing: OrderBookSide, o: Row, ghost rows0: seq<Row>, ghost i: nat) returns (crosses: bool)
    requires Ready(own, facing, o, rows0, i) && facing.Valid() && o.price.Some?
    modifies facing`priceMap, facing`priceKeys, facing`ladder, facing`emptyLevelCount, facing.priceTree, facing.priceTree.repr
    ensures Ready(own, facing, o, rows0, i) && own.Valid() && facing.Valid() && facing.priceTree.tree == old(facing.LookedAt())
    ensures BookOf(own, facing, o.side) == old(BookOf(own, facing, o.side))
    ensures crosses <==> Refuses(Offer(o), old(Shown(facing))) && !old(facing.Blind())
    ensures OL.Makers(NodesOf(facing.ladder)) == old(OL.Makers(NodesOf(facing.ladder)))
    ensures facing.Levels() <= old(facing.Levels()) && facing.Orders() == old(facing.Orders()) && facing.priceTree.repr == old(facing.priceTree.repr)
    ensures own.Levels() == old(own.Levels()) && own.Orders() == old(own.Orders()) && own.priceTree.repr == old(own.priceTree.repr)
    ensures facing.Slims() && Same(own)
  {
    hide OrderBookSide.Indexed, OrderBookSide.TreeOk, AllValid, CountEmpty, OrderBookSide.Leads, OrderBookSide.Wanting,
      NodesOf, OL.Makers;
    hide Booked, RowsOk, Refuses, Shown;
    crosses := BookV1.WouldMatch(facing, own, Offer(o));
    ApartBoth(facing, own);
  }

  /** Writes the rows of the makers and takes what was matched from them. */
  method FillMakers(own: OrderBookSide, facing: OrderBookSide, o: Row, rows0: seq<Row>, ghost i: nat, matches: seq<V1Match>)
    returns (rows: seq<Row>, filled: int)
    requires Ready(own, facing, o, rows0, i) && Fillable(facing, o, matches) && matches != []
    modifies facing, facing.priceTree, facing.priceTree.repr, facing.Levels(), facing.Orders()
    ensures SidesOk(own, facing, o.side) && RowsSound(rows) && InStep(own, facing, o.side, rows)
    ensures facing.Queue() == Served(old(facing.Queue()), PlainAll(matches)) && own.Queue() == old(own.Queue())
    ensures OnlyMakers(rows0, rows, Opposite(o.side)) && 0 < filled <= o.remaining && filled == FilledQty(PlainAll(matches))
    ensures forall s :: FilledOn(rows, s) == FilledOn(rows0, s) + if s == Opposite(o.side) then filled else 0
    ensures facing.Levels() <= old(facing.Levels()) && facing.Orders() <= old(facing.Orders()) && facing.priceTree.repr == old(facing.priceTree.repr)
    ensures own.Levels() == old(own.Levels()) && own.Orders() == old(own.Orders()) && own.priceTree.repr == old(own.priceTree.repr)
    ensures facing.Slims() && Same(own)
  {
    hide OrderBookSide.Indexed, OrderBookSide.TreeOk, AllValid, CountEmpty, OrderBookSide.Leads, OrderBookSide.Wanting,
      NodesOf, OL.Makers;
    hide Booked, FilledOn, FilledQty, FromFront, Served, PlainAll, OrderBookSide.Aligned, OnlyMakers, RowsSound;
    rows, filled := WriteMakers(rows0, matches, Opposite(o.side), facing.Queue());
    ApplyTo(facing, own, matches);
    ApartBoth(facing, own);
  }

  /** The taker's own row, and what is left of its order. */
  method Finish(own: OrderBookSide, facing: OrderBookSide, o: Row, ghost rows0: seq<Row>, rows1: seq<Row>, i: nat, filled: int)
    returns (rows: seq<Row>, released: int)
    requires SidesOk(own, facing, o.side) && RowsSound(rows1) && InStep(own, facing, o.side, rows1) && RowsOk(rows0)
    requires i < |rows0| && rows0[i] == o && o.status == Pending && o.kind == LimitOrder && o.price.Some?
    requires OnlyMakers(rows0, rows1, Opposite(o.side)) && 0 < filled <= o.remaining
    requires forall s :: FilledOn(rows1, s) == FilledOn(rows0, s) + if s == Opposite(o.side) then filled else 0
    modifies own, own.priceTree, own.priceTree.repr, own.Levels(), own.Orders()
    ensures Done(own, facing, o, rows0, rows, i, released) && SidesOk(own, facing, o.side) && i < |rows|
    ensures facing.Queue() == old(facing.Queue())
    ensures var left := o.remaining - filled;
            && rows[i] == Taken(o, filled, if left == 0 then FilledUp else if o.tif == GTC then PartlyFilled else Cancelled)
            && own.Queue() == (if left != 0 && o.tif == GTC then Enqueue(Opposite(o.side), old(own.Queue()), MakerOf(rows[i], KEY))
                               else old(own.Queue()))
            && released == if left == 0 || o.tif == GTC then 0 else if o.side == Buy then o.price.value * left else left
    ensures Grown(own) && Grown(facing)
    ensures Widened(own) && Widened(facing)
    ensures Same(facing)
  {
    hide OrderBookSide.WidensFrom, OrderBookSide.IsFlat, SidesOk, InStep, OnlyMakers, FilledOn, RowsSound, RowsOk, Enqueue;
    PendingWants(rows0, i);
    TakersOf(own, facing, o.side);
    var left := o.remaining - filled;
    var r := o.(remaining := left, filled := filled,
                status := if left == 0 then FilledUp else if o.tif == GTC then PartlyFilled else Cancelled);
    TakerRow(rows0, rows1, i, r, filled);
    rows := rows1[i := r];
    if left != 0 && o.tif == GTC {
      PutToRest(own, facing, o, rows1, i, r);
      released := 0;
    } else {
      NotResting(own, facing, o, rows1, i, r);
      own.AsWide();
      facing.AsWide();
      released := if left == 0 then 0 else if o.side == Buy then o.price.value * left else left;
    }
  }

  lemma {:induction false} TakerRow(rows0: seq<Row>, rows1: seq<Row>, i: nat, r: Row, filled: int)
    requires RowsOk(rows0) && RowsSound(rows1) && i < |rows0| && rows0[i].status == Pending
    requires OnlyMakers(rows0, rows1, Opposite(r.side)) && 0 < filled <= rows0[i].remaining
    requires forall s :: FilledOn(rows1, s) == FilledOn(rows0, s) + if s == Opposite(r.side) then filled else 0
    requires r == rows0[i].(remaining := rows0[i].remaining - filled, filled := filled, status := r.status)
    requires r.status == if r.remaining == 0 then FilledUp else if r.tif == GTC then PartlyFilled else Cancelled
    ensures |rows1| == |rows0| && rows1[i] == rows0[i] && RowOk(r) && RowsOk(rows1[i := r])
    ensures OnlyMakers(rows0[..i] + rows0[i + 1..], rows1[i := r][..i] + rows1[i := r][i + 1..], Opposite(r.side))
  {
    hide FilledOn, RowsSound, RowsOk, OnlyMakers;
    PendingWants(rows0, i);
    SoundAt(rows0, i);
    OthersOnly(rows0, rows1, i, r, Opposite(r.side));
    RowDone(rows0, rows1, i, r, filled);
  }

  lemma {:induction false} SoundAt(rows: seq<Row>, i: nat)
    requires RowsOk(rows) && i < |rows|
    ensures RowOk(rows[i])
  {
    hide FilledOn;
  }

  lemma {:induction false} OthersOnly(before: seq<Row>, after: seq<Row>, i: nat, r: Row, side: Side)
    requires OnlyMakers(before, after, side) && i < |before| && !IsResting(before[i])
    ensures |after| == |before| && after[i] == before[i]
    ensures OnlyMakers(before[..i] + before[i + 1..], after[i := r][..i] + after[i := r][i + 1..], side)
  {
    hide IsResting;
    var a, b := before[..i] + before[i + 1..], after[i := r][..i] + after[i := r][i + 1..];
    assert forall k :: 0 <= k < |a| ==> a[k] == before[if k < i then k else k + 1] && b[k] == after[if k < i then k else k + 1];
  }

  lemma {:induction false} NotResting(own: OrderBookSide, facing: OrderBookSide, o: Row, rows: seq<Row>, i: nat, r: Row)
    requires SidesOk(own, facing, o.side) && InStep(own, facing, o.side, rows) && i < |rows| && !IsResting(rows[i]) && !IsResting(r)
    ensures InStep(own, facing, o.side, rows[i := r])
  {
    NotBooked(rows, i, r, Buy, KEY);
    NotBooked(rows, i, r, Sell, KEY);
    hide Booked, OrderBookSide.Valid;
  }

  method NewSides(order: int) returns (bids: OrderBookSide, asks: OrderBookSide)
    requires order >= 2
    ensures SidesOk(bids, asks, Buy) && InStep(bids, asks, Buy, []) && RowsOk([]) && BookOf(bids, asks, Buy) == Book([], [])
    ensures bids.priceMap == map[] == asks.priceMap && bids.IsFlat() && asks.IsFlat()
    ensures bids.priceTree.order == order == asks.priceTree.order
    ensures fresh(bids) && fresh(bids.priceTree) && fresh(bids.priceTree.repr) && fresh(bids.Levels()) && fresh(bids.Orders())
    ensures fresh(asks) && fresh(asks.priceTree) && fresh(asks.priceTree.repr) && fresh(asks.Levels()) && fresh(asks.Orders())
  {
    hide OrderBookSide.Indexed, OrderBookSide.TreeOk, AllValid, CountEmpty, OrderBookSide.Leads, OrderBookSide.Wanting,
      NodesOf, OL.Makers;
    bids := new OrderBookSide(Sell, order);
    asks := new OrderBookSide(Buy, order);
  }

  /** The event finds a pending limit order. */
  predicate ForBook(id: string, rows: seq<Row>) {
    var i := RowAt(rows, id);
    i < |rows| && rows[i].status == Pending && rows[i].kind == LimitOrder && rows[i].price.Some?
  }

  /** What an order event may do to the rows, the book and the owner's locked balance. */
  ghost predicate Handled(id: string, rows: seq<Row>, rows': seq<Row>, b: Book, b': Book, refused: bool, released: int) {
    var i := RowAt(rows, id);
    if ForBook(id, rows) then i < |rows'| && Worked(rows[i], rows, rows', i, released) && Answers(rows[i], refused, b, b', rows'[i])
    else if i == |rows| || rows[i].status != Pending then rows' == rows && b' == b && released == 0
    else
      var status := if rows[i].kind in {StopLimit, StopMarket} then Open else RejectedRow;
      rows' == rows[i := rows[i].(status := status)] && b' == b && released == 0
  }

  /** So the book of this engine is sorted and never crossed either, whatever events arrive. */
  lemma {:induction false} HandledOk(id: string, rows: seq<Row>, rows': seq<Row>, b: Book, b': Book, refused: bool, released: int)
    requires RowsOk(rows) && BookOk(b) && Handled(id, rows, rows', b, b', refused, released)
    ensures BookOk(b')
  {
    hide BookOk, Process, Worked;
    if ForBook(id, rows) {
      var i := RowAt(rows, id);
      PendingWants(rows, i);
      ProcessOk(b, OrderOf(rows[i]));
    }
  }

  /** A post-only order trades on entry exactly if its key reaches that of the best order and the look ahead did not see
      that, because it could not see the order or compared the prices themselves. */
  lemma {:induction false} PostOnlyTradesIff(o: Row, refused: bool, b: Book, b': Book, r: Row, best: Option<int>, blind: bool)
    requires o.price.Some? && o.postOnly && o.remaining > 0 && o.filled == 0 && Answers(o, refused, b, b', r) && RefusedIf(o, refused, best, blind)
    requires Positive(Facing(b, o.side))
    requires var q := Facing(b, o.side); if best.None? then q == [] else q != [] && q[0].price == PriceToBigint(best.value)
    ensures r.filled > 0 <==>
              && best.Some? && Crosses(o.side, Some(PriceToBigint(o.price.value)), PriceToBigint(best.value))
              && (blind || !Reaches(o.side, o.price.value, best.value))
    ensures r.filled == 0 ==> r == o.(status := r.status) && r.status in {Open, RejectedRow}
  {
    hide PriceToBigint;
    var q, limit := Facing(b, o.side), Some(PriceToBigint(o.price.value));
    assert Trades(b, OrderOf(o)) == Fills(o.side, limit, q, o.remaining);
    FillsConserve(o.side, limit, q, o.remaining);
    FirstFill(o.side, limit, q, o.remaining);
  }

  lemma {:induction false} FirstFill(side: Side, limit: Limit, q: seq<Maker>, qty: int)
    requires Positive(q) && qty > 0
    ensures var fs := Fills(side, limit, q, qty);
            && (fs != [] <==> q != [] && Crosses(side, limit, q[0].price)) && (fs != [] <==> FilledQty(fs) > 0) && (fs == [] ==> FilledQty(fs) == 0)
  {
    if !Stops(side, limit, q, qty) {
      FillsUnfold(side, limit, q, qty);
      FillsConserve(side, limit, q[1..], qty - MinQty(qty, q[0].qty));
      hide Fills;
    }
  }

  /** With all prices on the grid, only an order the look ahead cannot see lets a post-only order trade on entry. */
  lemma {:induction false} PostOnlyOnGrid(o: Row, refused: bool, b: Book, b': Book, r: Row, best: Option<int>, blind: bool)
    requires o.price.Some? && o.postOnly && o.remaining > 0 && o.filled == 0 && Answers(o, refused, b, b', r) && RefusedIf(o, refused, best, blind)
    requires Positive(Facing(b, o.side)) && OnGrid(o.price.value) && (best.Some? ==> OnGrid(best.value))
    requires var q := Facing(b, o.side); if best.None? then q == [] else q != [] && q[0].price == PriceToBigint(best.value)
    ensures r.filled > 0 <==> blind && Refuses(Offer(o), best)
  {
    PostOnlyTradesIff(o, refused, b, b', r, best, blind);
    if best.Some? {
      KeyComparesIff(o.price.value, best.value);
      KeyComparesIff(best.value, o.price.value);
    }
    hide PriceToBigint, OnGrid, Answers;
  }

  // ---- what stays locked, and what becomes of the order

  /** What the live limit orders of a user hold locked on one side: price times what is left of a buy, what is left of a sell. */
  ghost function Reserved(rows: seq<Row>, user: string, side: Side): int {
    if rows == [] then 0 else Held(rows[0], user, side) + Reserved(rows[1..], user, side)
  }

  ghost function Held(r: Row, user: string, side: Side): int {
    if r.user != user || r.side != side || r.kind != LimitOrder || r.price == None || r.status !in {Pending, Open, PartlyFilled} then 0
    else if side == Buy then r.price.value * r.remaining
    else r.remaining
  }

  /** What fills took of it since, each order paying its own limit. */
  ghost function Spent(before: seq<Row>, after: seq<Row>, user: string, side: Side): int
    requires |before| == |after|
  {
    if before == [] then 0 else SpentOn(before[0], after[0], user, side) + Spent(before[1..], after[1..], user, side)
  }

  ghost function SpentOn(r: Row, r': Row, user: string, side: Side): int {
    if r.user != user || r.side != side || r.kind != LimitOrder || r.price == None then 0
    else if side == Buy then r.price.value * (r'.filled - r.filled)
    else r'.filled - r.filled
  }

  /** What is given back by the event to this user on this side. */
  ghost function Returned(id: string, rows: seq<Row>, released: int, user: string, side: Side): int {
    var i := RowAt(rows, id);
    if i < |rows| && rows[i].user == user && rows[i].side == side then released else 0
  }

  /** Nothing locked is lost or given back twice: whatever event arrives, all users' reserves fall by what fills spent and
      what the event gives back. */
  lemma {:induction false} ReserveIsKept(id: string, rows: seq<Row>, rows': seq<Row>, b: Book, b': Book, refused: bool, released: int, user: string, side: Side)
    requires RowsSound(rows) && RowsSound(rows') && Handled(id, rows, rows', b, b', refused, released)
    ensures |rows'| == |rows|
    ensures Reserved(rows', user, side) + Spent(rows, rows', user, side) + Returned(id, rows, released, user, side) == Reserved(rows, user, side)
  {
    hide Answers, Held, SpentOn, Reserved, Spent;
    var i := RowAt(rows, id);
    assert |rows'| == |rows|;
    forall j | 0 <= j < |rows|
      ensures Held(rows'[j], user, side) + SpentOn(rows[j], rows'[j], user, side)
                + (if j == i && rows[i].user == user && rows[i].side == side then released else 0) == Held(rows[j], user, side)
    {
      RowIsKept(id, rows, rows', b, b', refused, released, user, side, j);
    }
    SumIsKept(rows, rows', i, released, user, side);
  }

  lemma {:induction false} RowIsKept(id: string, rows: seq<Row>, rows': seq<Row>, b: Book, b': Book, refused: bool, released: int, user: string, side: Side, j: nat)
    requires RowsSound(rows) && RowsSound(rows') && Handled(id, rows, rows', b, b', refused, released)
    requires j < |rows| == |rows'|
    ensures Held(rows'[j], user, side) + SpentOn(rows[j], rows'[j], user, side)
              + (if j == RowAt(rows, id) && rows[j].user == user && rows[j].side == side then released else 0) == Held(rows[j], user, side)
  {
    hide Answers, Held, SpentOn;
    var i := RowAt(rows, id);
    if ForBook(id, rows) && j == i {
      OwnIsKept(rows[i], rows, rows', i, released, user, side);
    } else {
      if ForBook(id, rows) {
        var os, os' := rows[..i] + rows[i + 1..], rows'[..i] + rows'[i + 1..];
        var k := if j < i then j else j - 1;
        assert os[k] == rows[j] && os'[k] == rows'[j];
      }
      OtherIsKept(rows[j], rows'[j], user, side);
    }
  }

  lemma {:induction false} OwnIsKept(o: Row, rows: seq<Row>, rows': seq<Row>, i: nat, released: int, user: string, side: Side)
    requires Worked(o, rows, rows', i, released) && RowOk(o) && RowOk(rows'[i]) && o.status == Pending && o.kind == LimitOrder
    ensures Held(rows'[i], user, side) + SpentOn(o, rows'[i], user, side) + (if o.user == user && o.side == side then released else 0)
              == Held(o, user, side)
  {
    hide OnlyMakers;
    Shared(o.price.value, rows'[i].remaining, rows'[i].filled - o.filled);
  }

  /** A maker's row, a row marked open or rejected, or one the event leaves alone. */
  lemma {:induction false} OtherIsKept(r: Row, r': Row, user: string, side: Side)
    requires RowOk(r) && RowOk(r') && r' == r.(status := r'.status, filled := r'.filled, remaining := r'.remaining)
    requires r' != r && (r.kind == LimitOrder && r.price.Some?) ==>
               IsResting(r) && (r'.status == if r'.remaining == 0 then FilledUp else PartlyFilled)
    ensures Held(r', user, side) + SpentOn(r, r', user, side) == Held(r, user, side)
  {
    if r.price.Some? {
      Shared(r.price.value, r'.remaining, r'.filled - r.filled);
    }
  }

  lemma {:induction false} Shared(price: int, a: int, b: int)
    ensures price * (a + b) == price * a + price * b && price * 0 == 0
  {
  }

  lemma {:induction false} SumIsKept(rows: seq<Row>, rows': seq<Row>, i: nat, released: int, user: string, side: Side)
    requires |rows'| == |rows|
    requires forall j :: 0 <= j < |rows| ==>
               Held(rows'[j], user, side) + SpentOn(rows[j], rows'[j], user, side)
                 + (if j == i && rows[i].user == user && rows[i].side == side then released else 0) == Held(rows[j], user, side)
    ensures Reserved(rows', user, side) + Spent(rows, rows', user, side)
              + (if i < |rows| && rows[i].user == user && rows[i].side == side then released else 0) == Reserved(rows, user, side)
  {
    hide Held, SpentOn;
    if rows != [] {
      if i == 0 {
        SumIsKept(rows[1..], rows'[1..], |rows|, released, user, side);
      } else {
        SumIsKept(rows[1..], rows'[1..], i - 1, released, user, side);
      }
    }
  }

  /** What the row says of a limit order the engine has dealt with. */
  ghost predicate Concludes(o: Row, refused: bool, r: Row) {
    if r.remaining == 0 then r.status == FilledUp && !refused
    else if o.tif == GTC && !refused then r.status == if r.filled == 0 then Open else PartlyFilled
    else r.status == (if r.filled == 0 then RejectedRow else Cancelled) && (refused ==> r.filled == 0)
  }

  lemma {:induction false} StatusTells(o: Row, refused: bool, b: Book, b': Book, r: Row)
    requires o.price.Some? && o.remaining > 0 && o.filled == 0 && Positive(Facing(b, o.side)) && Answers(o, refused, b, b', r)
    ensures Concludes(o, refused, r)
    ensures r.filled == FilledQty(if refused then [] else Trades(b, OrderOf(o))) && r.filled + r.remaining == o.remaining
  {
    hide PriceToBigint;
    var q, limit := Facing(b, o.side), Some(PriceToBigint(o.price.value));
    assert Trades(b, OrderOf(o)) == Fills(o.side, limit, q, o.remaining);
    FillsConserve(o.side, limit, q, o.remaining);
    FirstFill(o.side, limit, q, o.remaining);
  }

  /** So much for one event: the row tells, the rest is given back, and every reserve is kept. */
  lemma {:induction false} EventTells(id: string, rows: seq<Row>, rows': seq<Row>, b: Book, b': Book, refused: bool, released: int)
    requires RowsOk(rows) && RowsOk(rows') && BothPositive(b) && Handled(id, rows, rows', b, b', refused, released)
    ensures ForBook(id, rows) ==>
              var i := RowAt(rows, id);
              && i < |rows'| && rows'[i].price.Some? && Concludes(rows[i], refused, rows'[i])
              && released == if rows'[i].status != RejectedRow && rows'[i].status != Cancelled then 0
                             else if rows'[i].side == Buy then rows'[i].price.value * rows'[i].remaining
                             else rows'[i].remaining
    ensures |rows'| == |rows| && forall user, side ::
              Reserved(rows', user, side) + Spent(rows, rows', user, side) + Returned(id, rows, released, user, side) == Reserved(rows, user, side)
  {
    hide Answers, Concludes, FilledOn, RowsSound, Reserved, Spent, Returned, Worked;
    if ForBook(id, rows) {
      OwnRowTells(rows[RowAt(rows, id)], rows, rows', RowAt(rows, id), b, b', refused, released);
    }
    ReserveIsKept(id, rows, rows', b, b', refused, released, "", Buy);
    forall user, side ensures Reserved(rows', user, side) + Spent(rows, rows', user, side) + Returned(id, rows, released, user, side) == Reserved(rows, user, side) {
      ReserveIsKept(id, rows, rows', b, b', refused, released, user, side);
    }
  }

  ghost predicate BothPositive(b: Book) { Positive(b.bids) && Positive(b.asks) }

  lemma {:induction false} OwnRowTells(o: Row, rows: seq<Row>, rows': seq<Row>, i: nat, b: Book, b': Book, refused: bool, released: int)
    requires RowsOk(rows) && i < |rows| && rows[i] == o && o.status == Pending && BothPositive(b)
    requires i < |rows'| && Worked(o, rows, rows', i, released) && Answers(o, refused, b, b', rows'[i])
    ensures rows'[i].price.Some? && Concludes(o, refused, rows'[i])
    ensures released == if rows'[i].status != RejectedRow && rows'[i].status != Cancelled then 0
                        else if rows'[i].side == Buy then rows'[i].price.value * rows'[i].remaining
                        else rows'[i].remaining
  {
    hide Answers, Concludes, FilledOn, OnlyMakers;
    PendingWants(rows, i);
    StatusTells(o, refused, b, b', rows'[i]);
  }

  class Engine {
    var rows: seq<Row>
    const bids: OrderBookSide
    const asks: OrderBookSide

    ghost predicate Valid()
      reads this`rows
      reads bids, bids.priceTree, bids.priceTree.repr, bids.Levels(), bids.Orders()
      reads asks, asks.priceTree, asks.priceTree.repr, asks.Levels(), asks.Orders()
    {
      SidesOk(bids, asks, Buy) && RowsOk(rows) && InStep(bids, asks, Buy, rows)
    }

    ghost function View(): Book
      requires bids.Valid() && asks.Valid()
      reads bids, bids.priceTree, bids.priceTree.repr, bids.Levels(), bids.Orders()
      reads asks, asks.priceTree, asks.priceTree.repr, asks.Levels(), asks.Orders()
    {
      BookOf(bids, asks, Buy)
    }

    constructor (order: int)
      requires order >= 2
      ensures Valid() && rows == [] && View() == Book([], [])
      ensures bids.priceMap == map[] == asks.priceMap && bids.IsFlat() && asks.IsFlat()
      ensures bids.priceTree.order == order == asks.priceTree.order
      ensures fresh(bids) && fresh(bids.priceTree) && fresh(bids.priceTree.repr) && fresh(bids.Levels()) && fresh(bids.Orders())
      ensures fresh(asks) && fresh(asks.priceTree) && fresh(asks.priceTree.repr) && fresh(asks.Levels()) && fresh(asks.Orders())
    {
      hide OrderBookSide.Indexed, OrderBookSide.TreeOk, AllValid, CountEmpty, OrderBookSide.Leads, OrderBookSide.Wanting,
        NodesOf, OL.Makers;
      hide RowsOk, Booked;
      var b, a := NewSides(order);
      rows, bids, asks := [], b, a;
    }

    /** The table gets a new order. */
    method Place(r: Row)
      requires Valid() && RowOk(r) && r.status == Pending && RowAt(rows, r.id) == |rows|
      modifies this`rows
      ensures Valid() && rows == old(rows) + [r] && View() == old(View())
    {
      hide OrderBookSide.Indexed, OrderBookSide.TreeOk, AllValid, CountEmpty, OrderBookSide.Leads, OrderBookSide.Wanting,
        NodesOf, OL.Makers;
      hide Booked, RowsOk;
      PlacedSound(rows, r);
      rows := rows + [r];
    }

    /** The match this order leads to, if any, walks its side of the book in order. */
    ghost predicate WayIsClear(o: Row)
      requires bids.Valid() && asks.Valid() && o.price.Some?
      reads bids, bids.priceTree, bids.priceTree.repr, bids.Levels(), bids.Orders()
      reads asks, asks.priceTree, asks.priceTree.repr, asks.Levels(), asks.Orders()
    {
      ClearFor(Own(Opposite(o.side)), o)
    }

    /** One order event. Every row stays sound, the book stays in step with the rows, what buyers got stays what sellers
        gave, and book, row and refund are what the book model gives for the order. The row says what became of the order;
        what can no longer trade of it is given back, so that nobody's reserve is lost or given back twice. */
    method HandleOrderCreated(id: string) returns (released: int, ghost refused: bool)
      requires Valid() && (ForBook(id, rows) ==> WayIsClear(rows[RowAt(rows, id)]))
      modifies this`rows
      modifies bids, bids.priceTree, bids.priceTree.repr, bids.Levels(), bids.Orders()
      modifies asks, asks.priceTree, asks.priceTree.repr, asks.Levels(), asks.Orders()
      ensures Valid() && Handled(id, old(rows), rows, old(View()), View(), refused, released)
      ensures Grown(bids) && Grown(asks)
      ensures Widened(bids) && Widened(asks)
      ensures ForBook(id, old(rows)) ==>
                var o := old(rows)[RowAt(old(rows), id)];
                RefusedIf(o, refused, old(Shown(Own(Opposite(o.side)))), old(Own(Opposite(o.side)).Blind()))
      ensures ForBook(id, old(rows)) ==>
                var i := RowAt(old(rows), id);
                && i < |rows| && Concludes(old(rows)[i], refused, rows[i])
                && released == if rows[i].status != RejectedRow && rows[i].status != Cancelled then 0
                               else if rows[i].side == Buy then rows[i].price.value * rows[i].remaining
                               else rows[i].remaining
      ensures !ForBook(id, old(rows)) ==>
                var i := RowAt(old(rows), id);
                && View() == old(View()) && released == 0
                && rows == if i == |old(rows)| || old(rows)[i].status != Pending then old(rows)
                           else old(rows)[i := old(rows)[i].(status := if old(rows)[i].kind in {StopLimit, StopMarket} then Open else RejectedRow)]
      ensures |rows| == |old(rows)| && forall user, side ::
                Reserved(rows, user, side) + Spent(old(rows), rows, user, side) + Returned(id, old(rows), released, user, side)
                  == Reserved(old(rows), user, side)
    {
      hide SidesOk, RowsOk, InStep, Worked, Answers, Concludes, RefusedIf, Shown, BookOf, Reserved, Spent, Returned;
      hide OrderBookSide.Valid;
      released, refused := 0, false;
      ViewIsSound();
      ghost var was, b := rows, View();
      var i := RowAt(rows, id);
      if i == |rows| || rows[i].status != Pending {
      } else if rows[i].kind == StopLimit || rows[i].kind == StopMarket {
        Mark(i, Open);
      } else if rows[i].kind != LimitOrder || rows[i].price == None {
        Mark(i, RejectedRow);
      } else {
        released, refused := Work(rows[i], i);
      }
      ViewIsSound();
      EventTells(id, was, rows, b, View(), refused, released);
    }

    lemma {:induction false} ViewIsSound()
      requires Valid()
      ensures bids.Valid() && asks.Valid() && RowsOk(rows) && BothPositive(View())
    {
      hide OrderBookSide.Valid, RowsOk, InStep;
      QueueWants(bids);
      QueueWants(asks);
    }

    ghost function Own(side: Side): OrderBookSide { if side == Buy then bids else asks }

    lemma {:induction false} NotOneOf(side: OrderBookSide)
      ensures forall l :: l in side.Levels() ==> (l as object) != this
      ensures forall n :: n in side.Orders() ==> (n as object) != this
      ensures forall n :: n in side.priceTree.repr ==> (n as object) != this
    {
    }

    method Work(o: Row, i: nat) returns (released: int, ghost refused: bool)
      requires Valid() && i < |rows| && rows[i] == o && o.status == Pending && o.kind == LimitOrder && o.price.Some? && WayIsClear(o)
      modifies this`rows
      modifies bids, bids.priceTree, bids.priceTree.repr, bids.Levels(), bids.Orders()
      modifies asks, asks.priceTree, asks.priceTree.repr, asks.Levels(), asks.Orders()
      ensures Valid() && i < |rows| && Worked(o, old(rows), rows, i, released) && Answers(o, refused, old(View()), View(), rows[i])
      ensures Grown(bids) && Grown(asks)
      ensures Widened(bids) && Widened(asks)
      ensures RefusedIf(o, refused, old(Shown(Own(Opposite(o.side)))), old(Own(Opposite(o.side)).Blind()))
    {
      hide RowsOk, Answers, RefusedIf, Shown, Worked, Engine.Own, OrderBookSide.Blind, SidesOk, InStep, BookOf;
      hide OrderBookSide.Valid;
      var rows';
      rows', released, refused := Deal(o, i);
      NotOneOf(bids);
      NotOneOf(asks);
      rows := rows';
    }

    method Deal(o: Row, i: nat) returns (rows': seq<Row>, released: int, ghost refused: bool)
      requires Valid() && i < |rows| && rows[i] == o && o.status == Pending && o.kind == LimitOrder && o.price.Some? && WayIsClear(o)
      modifies bids, bids.priceTree, bids.priceTree.repr, bids.Levels(), bids.Orders()
      modifies asks, asks.priceTree, asks.priceTree.repr, asks.Levels(), asks.Orders()
      ensures SidesOk(bids, asks, Buy) && RowsOk(rows') && InStep(bids, asks, Buy, rows') && i < |rows'|
      ensures Worked(o, rows, rows', i, released) && Answers(o, refused, old(View()), View(), rows'[i])
      ensures Grown(bids) && Grown(asks)
      ensures Widened(bids) && Widened(asks)
      ensures RefusedIf(o, refused, old(Shown(Own(Opposite(o.side)))), old(Own(Opposite(o.side)).Blind()))
    {
      hide SidesOk, InStep, RowsOk, Answers, RefusedIf, Shown, Worked, Done, Ready, BookOf;
      hide OrderBookSide.Valid;
      GetReady(i);
      if o.side == Buy {
        rows', released, refused := Execute(bids, asks, o, rows, i);
      } else {
        rows', released, refused := Execute(asks, bids, o, rows, i);
      }
      GotDone(o, rows, rows', i, released);
    }

    lemma {:induction false} GetReady(i: nat)
      requires Valid() && i < |rows| && rows[i].status == Pending && rows[i].kind == LimitOrder && rows[i].price.Some?
      ensures var o := rows[i]; var own, facing := Own(o.side), Own(Opposite(o.side));
              && Ready(own, facing, o, rows, i) && own.Valid() && facing.Valid()
              && BookOf(own, facing, o.side) == BookOf(bids, asks, Buy)
    {
      hide OrderBookSide.Valid, RowsOk, Booked;
      ApartBoth(bids, asks);
    }

    lemma {:induction false} GotDone(o: Row, rows0: seq<Row>, rows1: seq<Row>, i: nat, released: int)
      requires Done(Own(o.side), Own(Opposite(o.side)), o, rows0, rows1, i, released)
      ensures SidesOk(bids, asks, Buy) && RowsOk(rows1) && InStep(bids, asks, Buy, rows1) && Worked(o, rows0, rows1, i, released)
      ensures i < |rows1| && BookOf(Own(o.side), Own(Opposite(o.side)), o.side) == BookOf(bids, asks, Buy)
    {
      hide OrderBookSide.Valid, RowsOk, Booked;
      ApartBoth(Own(o.side), Own(Opposite(o.side)));
    }

    /** A pending order that never reaches the book changes its status only. */
    method Mark(i: nat, status: Status)
      requires Valid() && i < |rows| && rows[i].status == Pending && status != Pending
      requires rows[i].kind != LimitOrder || rows[i].price == None || status == RejectedRow
      modifies this`rows
      ensures Valid() && rows == old(rows)[i := old(rows)[i].(status := status)] && View() == old(View())
    {
      hide OrderBookSide.Indexed, OrderBookSide.TreeOk, AllValid, CountEmpty, OrderBookSide.Leads, OrderBookSide.Wanting,
        NodesOf, OL.Makers;
      hide Booked, FilledOn;
      var r := rows[i].(status := status);
      NotBooked(rows, i, r, Buy, KEY);
      NotBooked(rows, i, r, Sell, KEY);
      SoundUpdate(rows, i, r);
      FilledUpdate(rows, i, r, Buy);
      FilledUpdate(rows, i, r, Sell);
      rows := rows[i := r];
    }
  }

  lemma {:induction false} NobodyAdded(a: multiset<Maker>)
    ensures a + multiset{} == a
  {
  }

  /** A new pending row stands for no resting order. */
  lemma {:induction false} PlacedSound(rows: seq<Row>, r: Row)
    requires RowsOk(rows) && RowOk(r) && r.status == Pending && RowAt(rows, r.id) == |rows|
    ensures RowsOk(rows + [r])
    ensures Booked(rows + [r], Buy, KEY) == Booked(rows, Buy, KEY) && Booked(rows + [r], Sell, KEY) == Booked(rows, Sell, KEY)
  {
    hide Booked, FilledOn, RowsSound;
    BookedAppend(rows, r, Buy, KEY);
    BookedAppend(rows, r, Sell, KEY);
    NobodyAdded(Booked(rows, Buy, KEY));
    NobodyAdded(Booked(rows, Sell, KEY));
    FilledOnAppend(rows, r, Buy);
    FilledOnAppend(rows, r, Sell);
    SoundAppend(rows, r);
  }

  lemma {:induction false} SoundAppend(rows: seq<Row>, r: Row)
    requires RowsSound(rows) && RowOk(r) && RowAt(rows, r.id) == |rows|
    ensures RowsSound(rows + [r])
  {
    hide RowOk, RowAt;
  }

  lemma {:induction false} FilledOnAppend(rows: seq<Row>, r: Row, side: Side)
    ensures FilledOn(rows + [r], side) == FilledOn(rows, side) + if r.side == side then r.filled else 0
  {
    if rows == [] {
      assert rows + [r] == [r];
      assert FilledOn([r][1..], side) == 0;
    } else {
      assert (rows + [r])[0] == rows[0] && (rows + [r])[1..] == rows[1..] + [r];
      FilledOnAppend(rows[1..], r, side);
    }
  }

  // ---- starting again from the table

  lemma {:induction false} LoadHas(rows: seq<Row>, side: Side, m: Maker) returns (i: nat)
    requires m in Load(rows, side, KEY)
    ensures i < |rows| && rows[i].id == m.id
  {
    i := |rows| - 1;
    var q := Load(rows[..i], side, KEY);
    if Loaded(rows[i]) && rows[i].side == side {
      EnqueueAdds(Opposite(side), q, MakerOf(rows[i], KEY));
    }
    if rows[i].id != m.id {
      i := LoadHas(rows[..i], side, m);
    }
    hide Enqueue;
  }

  /** A row that is still to come is not in the book. */
  lemma {:induction false} NotLoadedYet(own: OrderBookSide, side: Side, table: seq<Row>, k: nat)
    requires own.Valid() && RowsSound(table) && k < |table| && own.Queue() == Load(table[..k], side, KEY)
    ensures table[k].id !in own.orderMap
  {
    hide Load, OrderBookSide.Indexed, OrderBookSide.TreeOk, AllValid, CountEmpty, NodesOf, OL.Makers, OrderBookSide.Wanting,
      RowOk;
    if table[k].id in own.orderMap {
      var n := own.orderMap[table[k].id];
      var c := NodesOf(own.ladder);
      OL.MakersAt(c);
      var j :| 0 <= j < |c| && c[j] == n;
      assert own.Queue()[j] in own.Queue();
      var i := LoadHas(table[..k], side, own.Queue()[j]);
    }
  }

  lemma {:induction false} LoadNext(table: seq<Row>, k: nat, side: Side)
    requires k < |table|
    ensures var r, q := table[k], Load(table[..k], side, KEY);
            Load(table[..k + 1], side, KEY) == if Loaded(r) && r.side == side then Enqueue(Opposite(side), q, MakerOf(r, KEY)) else q
  {
    assert table[..k + 1][..k] == table[..k] && table[..k + 1][k] == table[k];
    hide Enqueue, Loaded;
  }

  lemma {:induction false} LoadedWants(table: seq<Row>, k: nat)
    requires RowsSound(table) && k < |table| && Loaded(table[k])
    ensures table[k].remaining > 0
  {
  }

  /** Takes one row into the book, if it is a live limit order. */
  method LoadRow(bids: OrderBookSide, asks: OrderBookSide, table: seq<Row>, k: nat)
    requires SidesOk(bids, asks, Buy) && RowsSound(table) && k < |table|
    requires bids.Queue() == Load(table[..k], Buy, KEY) && asks.Queue() == Load(table[..k], Sell, KEY)
    modifies bids, bids.priceTree, bids.priceTree.repr, bids.Levels(), bids.Orders()
    modifies asks, asks.priceTree, asks.priceTree.repr, asks.Levels(), asks.Orders()
    ensures SidesOk(bids, asks, Buy)
    ensures bids.Queue() == Load(table[..k + 1], Buy, KEY) && asks.Queue() == Load(table[..k + 1], Sell, KEY)
    ensures OnlyGrown(bids, old(bids.Levels()), old(bids.Orders()), old(bids.priceTree.repr))
    ensures OnlyGrown(asks, old(asks.Levels()), old(asks.Orders()), old(asks.priceTree.repr))
  {
    hide OrderBookSide.Valid;
    hide Load, Enqueue, PriceToBigint, RowsSound, NodesOf, OL.Makers;
    var r := table[k];
    LoadNext(table, k, Buy);
    LoadNext(table, k, Sell);
    if Loaded(r) {
      LoadedWants(table, k);
      var o := Offer(r);
      if r.side == Buy {
        NotLoadedYet(bids, Buy, table, k);
        AddTo(bids, asks, o);
      } else {
        NotLoadedYet(asks, Sell, table, k);
        AddTo(asks, bids, o);
      }
    }
  }

  /** Builds both sides of a book from the order table, in whatever order the table lists its rows. */
  method LoadFromDb(table: seq<Row>, order: int) returns (bids: OrderBookSide, asks: OrderBookSide)
    requires RowsSound(table) && order >= 2
    ensures SidesOk(bids, asks, Buy)
    ensures fresh(bids) && fresh(bids.priceTree) && fresh(bids.priceTree.repr) && fresh(bids.Levels()) && fresh(bids.Orders())
    ensures fresh(asks) && fresh(asks.priceTree) && fresh(asks.priceTree.repr) && fresh(asks.Levels()) && fresh(asks.Orders())
    ensures bids.Queue() == Load(table, Buy, KEY) && asks.Queue() == Load(table, Sell, KEY)
  {
    hide OrderBookSide.Indexed, OrderBookSide.TreeOk, AllValid, CountEmpty, OrderBookSide.Leads, OrderBookSide.Wanting,
      NodesOf, OL.Makers;
    hide Load, RowsSound, Apart, InStep, RowsOk, OrderBookSide.Levels, OrderBookSide.Orders;
    bids, asks := NewSides(order);
    NothingLoadedYet(table);
    for k := 0 to |table|
      invariant SidesOk(bids, asks, Buy)
      invariant bids.Queue() == Load(table[..k], Buy, KEY) && asks.Queue() == Load(table[..k], Sell, KEY)
      invariant fresh(bids) && fresh(bids.priceTree) && fresh(bids.priceTree.repr) && fresh(bids.Levels()) && fresh(bids.Orders())
      invariant fresh(asks) && fresh(asks.priceTree) && fresh(asks.priceTree.repr) && fresh(asks.Levels()) && fresh(asks.Orders())
    {
      LoadRow(bids, asks, table, k);
    }
    assert table[..|table|] == table;
  }

  lemma {:induction false} NothingLoadedYet(table: seq<Row>)
    ensures Load(table[..0], Buy, KEY) == [] && Load(table[..0], Sell, KEY) == []
  {
  }
}
