/** Whole runs of the first engine, and starting it again from its rows. */
module EngineRunsV1 {
  import opened SortedEntries
  import opened ReferenceBook
  import opened EngineModel
  import opened RowsV1
  import opened Ladders
  import OL = OrderLevels
  import opened BookSideV1
  import opened BookV1
  import opened EngineV1
  import Runs = EngineRuns
  import E = BPlusEnds
  import R = BPlusRuns
  import W = Walks

  // ---- starting again

  /** An engine built anew from the rows of a running one, listed in any order, has the resting orders of that engine exactly
      if no limit order of the side is pending. */
  method Restart(e: Engine, table: seq<Row>, order: int) returns (bids: OrderBookSide, asks: OrderBookSide)
    requires e.Valid() && multiset(table) == multiset(e.rows) && order >= 2
    ensures e.Valid() && e.View() == old(e.View()) && SidesOk(bids, asks, Buy)
    ensures multiset(bids.Queue()) == multiset(e.View().bids)
            <==> forall r :: r in e.rows && r.side == Buy && r.kind == LimitOrder && r.price.Some? ==> r.status != Pending
    ensures multiset(asks.Queue()) == multiset(e.View().asks)
            <==> forall r :: r in e.rows && r.side == Sell && r.kind == LimitOrder && r.price.Some? ==> r.status != Pending
  {
    hide OrderBookSide.Indexed, OrderBookSide.TreeOk, AllValid, CountEmpty, OrderBookSide.Leads, OrderBookSide.Wanting,
      NodesOf, OL.Makers;
    hide RowsOk, Booked, Load, RowsSound;
    SoundTable(e.rows, table);
    RebuildRestoresIff(e.rows, table, Buy, KEY, e.bids.Queue());
    RebuildRestoresIff(e.rows, table, Sell, KEY, e.asks.Queue());
    bids, asks := LoadFromDb(table, order);
  }

  /** The rows are as sound in any order. */
  lemma {:induction false} SoundTable(rows: seq<Row>, table: seq<Row>)
    requires RowsOk(rows) && multiset(table) == multiset(rows)
    ensures RowsSound(table)
  {
    SameMembers(rows, table);
    forall i | 0 <= i < |table| ensures RowOk(table[i]) {
      assert table[i] in rows;
    }
    forall i, j | 0 <= i < j < |table| ensures table[i].id != table[j].id {
      if table[i].id == table[j].id {
        assert table[i] in rows && table[j] in rows;
        assert table[i] == table[j];
        Twice(table, i, j);
        Once(rows, table[i]);
      }
    }
    hide FilledOn;
  }

  lemma {:induction false} Twice<T>(s: seq<T>, i: nat, j: nat)
    requires i < j < |s| && s[i] == s[j]
    ensures multiset(s)[s[i]] >= 2
  {
    assert s == s[..j] + [s[j]] + s[j + 1..];
    assert s[..j][i] == s[i];
  }

  lemma {:induction false} Once(rows: seq<Row>, r: Row)
    requires forall i, j :: 0 <= i < j < |rows| ==> rows[i].id != rows[j].id
    ensures multiset(rows)[r] <= 1
  {
    if rows != [] {
      assert rows == [rows[0]] + rows[1..];
      if rows[0] == r {
        assert r !in rows[1..];
      } else {
        Once(rows[1..], r);
      }
    }
  }

  // ---- runs over few prices

  datatype Event = Placed(row: Row) | Created(id: string)

  /** The index keys of the prices named on one side. */
  ghost function Named(events: seq<Event>, side: Side): set<int> {
    if events == [] then {}
    else
      var ev, rest := events[|events| - 1], Named(events[..|events| - 1], side);
      if ev.Placed? && ev.row.side == side && ev.row.price.Some? then rest + {PriceToBigint(ev.row.price.value)} else rest
  }

  /** Every order placed is new. */
  ghost predicate Orderly(events: seq<Event>) {
    && (forall k :: 0 <= k < |events| && events[k].Placed? ==> RowOk(events[k].row) && events[k].row.status == Pending)
    && (forall j, k :: 0 <= j < k < |events| && events[j].Placed? && events[k].Placed? ==> events[j].row.id != events[k].row.id)
  }

  /** The state after an event: the table, the book, whether the event was a post-only order that was refused, and the best
      price it was up against. */
  datatype Moment = Moment(rows: seq<Row>, book: Book, refused: bool, best: Option<int>)

  ghost predicate BestIs(q: seq<Maker>, best: Option<int>) {
    if best.None? then q == [] else q != [] && q[0].price == PriceToBigint(best.value)
  }

  /** The event has done what the book model says; a post-only order is refused exactly if it reaches the best price. */
  ghost predicate Follows(ev: Event, m: Moment, m': Moment) {
    match ev
    case Placed(r) => m'.rows == m.rows + [r] && m'.book == m.book && !m'.refused
    case Created(id) =>
      && (exists released :: Handled(id, m.rows, m'.rows, m.book, m'.book, m'.refused, released))
      && if ForBook(id, m.rows) then
           var o := m.rows[RowAt(m.rows, id)];
           BestIs(Facing(m.book, o.side), m'.best) && RefusedIf(o, m'.refused, m'.best, false)
         else !m'.refused
  }

  ghost predicate Traces(events: seq<Event>, ms: seq<Moment>) {
    && |ms| == |events| + 1 && ms[0].rows == [] && ms[0].book == Book([], [])
    && (forall k :: 0 <= k < |ms| ==> RowsOk(ms[k].rows))
    && forall k :: 0 <= k < |events| ==> Follows(events[k], ms[k], ms[k + 1])
  }

  /** The orders that were let into the book, as the book model takes them. */
  ghost function Admitted(events: seq<Event>, ms: seq<Moment>): seq<Runs.Op>
    requires |ms| == |events| + 1
  {
    if events == [] then []
    else
      var n := |events| - 1;
      var before := Admitted(events[..n], ms[..n + 1]);
      if events[n].Created? && ForBook(events[n].id, ms[n].rows) && !ms[n + 1].refused
      then before + [Runs.Submit(OrderOf(ms[n].rows[RowAt(ms[n].rows, events[n].id)]))]
      else before
  }

  /** One leaf is enough for all keys of the side there can be. */
  ghost predicate Tame(side: OrderBookSide, keys: set<int>)
    reads side`priceMap, side.priceTree
  {
    side.IsFlat() && side.priceMap.Keys <= keys && |keys| < side.priceTree.order
  }

  /** All prices in the table are among those named. */
  ghost predicate Within(rows: seq<Row>, bids: set<int>, asks: set<int>) {
    forall r :: r in rows && r.price.Some? ==> PriceToBigint(r.price.value) in if r.side == Buy then bids else asks
  }

  /** A walk through one leaf is always clear. */
  lemma {:induction false} TameIsClear(facing: OrderBookSide, keys: set<int>, o: Row)
    requires facing.Valid() && Tame(facing, keys) && o.price.Some?
    ensures ClearFor(facing, o) && !facing.Blind()
  {
    hide OrderBookSide.Indexed, OrderBookSide.TreeOk, AllValid, PriceToBigint, R.Good, W.CourseOf, W.SmoothFor, Refuses,
      Shown, E.Looked, OrderBookSide.Blind, NodesOf, OL.Makers;
    facing.TreeIsValid();
    facing.FlatIsNotBlind();
    facing.FlatLook();
    var order := facing.priceTree.order;
    FlatCourse(facing.taker, facing.priceTree.tree, order, facing.Queue(), PriceToBigint(o.price.value), o.remaining);
    FlatCourse(facing.taker, facing.LookedAt(), order, facing.Queue(), PriceToBigint(o.price.value), o.remaining);
  }

  lemma {:induction false} FlatCourse(taker: Side, root: R.Root<OL.PriceLevel>, order: int, q: seq<Maker>, limit: int, qty: int)
    requires order >= 2 && R.Good(root, order) && (root.Some? ==> root.value.Leaf?)
    ensures var c := W.CourseOf(taker, root, order, q, limit, qty); c.ends && c.straight
  {
    W.OneLeafIsSmooth(root, W.DueFor(taker, q, W.AllKeys(root)), order);
    W.SmoothCourse(taker, root, order, q, limit, qty);
    hide R.Good, W.SmoothFor, W.CourseOf, W.DueFor;
  }

  // ---- what an event leaves as it is

  /** Ids, sides and prices. */
  ghost predicate Alike(rows: seq<Row>, rows': seq<Row>) {
    |rows'| == |rows| && forall i :: 0 <= i < |rows| ==> rows'[i].id == rows[i].id && rows'[i].side == rows[i].side && rows'[i].price == rows[i].price
  }

  lemma {:induction false} HandledIsAlike(id: string, rows: seq<Row>, rows': seq<Row>, b: Book, b': Book, refused: bool, released: int)
    requires Handled(id, rows, rows', b, b', refused, released)
    ensures Alike(rows, rows')
  {
    hide Answers;
    if ForBook(id, rows) {
      var i := RowAt(rows, id);
      var a, a' := rows[..i] + rows[i + 1..], rows'[..i] + rows'[i + 1..];
      forall j | 0 <= j < |rows| && j != i
        ensures rows'[j].id == rows[j].id && rows'[j].side == rows[j].side && rows'[j].price == rows[j].price {
        var k := if j < i then j else j - 1;
        assert a[k] == rows[j] && a'[k] == rows'[j];
      }
    }
  }

  lemma {:induction false} AlikeWithin(rows: seq<Row>, rows': seq<Row>, bids: set<int>, asks: set<int>)
    requires Alike(rows, rows') && Within(rows, bids, asks)
    ensures Within(rows', bids, asks)
  {
    hide PriceToBigint;
    forall r | r in rows' && r.price.Some? ensures PriceToBigint(r.price.value) in if r.side == Buy then bids else asks {
      var i :| 0 <= i < |rows'| && rows'[i] == r;
      assert rows[i] in rows;
    }
  }

  /** An order on the book is priced by its row. */
  lemma {:induction false} PricedWithin(side: OrderBookSide, s: Side, rows: seq<Row>, bids: set<int>, asks: set<int>)
    requires side.Valid() && multiset(side.Queue()) == Booked(rows, s, KEY) && Within(rows, bids, asks)
    ensures forall n :: n in NodesOf(side.ladder) ==> n.price in if s == Buy then bids else asks
  {
    hide OrderBookSide.Indexed, OrderBookSide.TreeOk, AllValid, NodesOf, Booked, PriceToBigint, OL.Makers,
      OrderBookSide.Leads, OrderBookSide.Wanting;
    var c := NodesOf(side.ladder);
    OL.MakersAt(c);
    forall n | n in c ensures n.price in if s == Buy then bids else asks {
      var k :| 0 <= k < |c| && c[k] == n;
      var m := side.Queue()[k];
      assert m in multiset(side.Queue());
      var i := BookedHas(rows, s, KEY, m);
      assert rows[i] in rows;
    }
  }

  /** So its levels stay among the prices named, and one leaf is enough. */
  lemma {:induction false} StaysTame(side: OrderBookSide, s: Side, rows: seq<Row>, bids: set<int>, asks: set<int>, keys0: set<int>, flat0: bool)
    requires side.Valid() && multiset(side.Queue()) == Booked(rows, s, KEY) && Within(rows, bids, asks)
    requires side.WidensFrom(keys0, flat0) && flat0
    requires var keys := if s == Buy then bids else asks; keys0 <= keys && |keys| < side.priceTree.order
    ensures Tame(side, if s == Buy then bids else asks)
  {
    hide OrderBookSide.Indexed, OrderBookSide.TreeOk, AllValid, NodesOf, Booked, Within, OL.Makers, OrderBookSide.Leads,
      OrderBookSide.Wanting;
    PricedWithin(side, s, rows, bids, asks);
    var keys := if s == Buy then bids else asks;
    forall p | p in side.priceMap ensures p in keys {
      if p !in keys0 {
        var n :| n in NodesOf(side.ladder) && n.price == p;
      }
    }
    FewerKeys(side.priceMap.Keys, keys);
  }

  lemma {:induction false} FewerKeys(a: set<int>, b: set<int>)
    requires a <= b
    ensures |a| <= |b|
  {
    assert b == a + (b - a);
  }

  /** The best order is filed under the key of the price it shows. */
  lemma {:induction false} ShownIsBest(side: OrderBookSide)
    requires side.Valid()
    ensures BestIs(side.Queue(), Shown(side))
  {
    hide OrderBookSide.Indexed, OrderBookSide.TreeOk, AllValid, NodesOf, OL.Makers, PriceToBigint, OrderBookSide.Leads,
      OrderBookSide.Wanting;
    OL.MakersAt(NodesOf(side.ladder));
    if NodesOf(side.ladder) != [] {
      side.KeyOfFirst();
    }
  }

  // ---- the run

  ghost predicate Sound(e: Engine, m: Moment, bids: set<int>, asks: set<int>)
    reads e`rows
    reads e.bids, e.bids.priceTree, e.bids.priceTree.repr, e.bids.Levels(), e.bids.Orders()
    reads e.asks, e.asks.priceTree, e.asks.priceTree.repr, e.asks.Levels(), e.asks.Orders()
  {
    && e.Valid() && Tame(e.bids, bids) && Tame(e.asks, asks) && Within(e.rows, bids, asks)
    && m.rows == e.rows && m.book == e.View()
  }

  method Handle(e: Engine, id: string, ghost m: Moment, ghost bids: set<int>, ghost asks: set<int>) returns (ghost m': Moment)
    requires Sound(e, m, bids, asks)
    modifies e`rows
    modifies e.bids, e.bids.priceTree, e.bids.priceTree.repr, e.bids.Levels(), e.bids.Orders()
    modifies e.asks, e.asks.priceTree, e.asks.priceTree.repr, e.asks.Levels(), e.asks.Orders()
    ensures Sound(e, m', bids, asks) && Follows(Created(id), m, m')
    ensures Grown(e.bids) && Grown(e.asks) && RowsOk(e.rows) && Alike(old(e.rows), e.rows)
  {
    hide OrderBookSide.Valid, SidesOk, InStep, RowsOk, Handled, RefusedIf, Shown, BookOf, BestIs, Within,
      OrderBookSide.WidensFrom, OrderBookSide.IsFlat, ClearFor, Alike, Follows;
    SidesAreValid(e);
    ghost var best := None;
    if ForBook(id, e.rows) {
      ghost var o := e.rows[RowAt(e.rows, id)];
      MayHandle(e, o, bids, asks);
      best := Shown(e.Own(Opposite(o.side)));
    }
    ghost var released, refused;
    released, refused := e.HandleOrderCreated(id);
    SidesAreValid(e);
    m' := Moment(e.rows, e.View(), refused && ForBook(id, m.rows), best);
    FollowsFrom(id, m, m', refused, released);
    HandledIsAlike(id, m.rows, e.rows, m.book, e.View(), refused, released);
    AlikeWithin(m.rows, e.rows, bids, asks);
    StillTame(e, bids, asks, old(e.bids.priceMap.Keys), old(e.bids.IsFlat()), old(e.asks.priceMap.Keys), old(e.asks.IsFlat()));
  }

  lemma {:induction false} StillTame(e: Engine, bids: set<int>, asks: set<int>, bk: set<int>, bf: bool, ak: set<int>, af: bool)
    requires e.Valid() && Within(e.rows, bids, asks)
    requires e.bids.WidensFrom(bk, bf) && bf && bk <= bids && |bids| < e.bids.priceTree.order
    requires e.asks.WidensFrom(ak, af) && af && ak <= asks && |asks| < e.asks.priceTree.order
    ensures Tame(e.bids, bids) && Tame(e.asks, asks)
  {
    hide OrderBookSide.Valid, SidesOk, InStep, RowsOk, Within, OrderBookSide.WidensFrom;
    SidesAreValid(e);
    StaysTame(e.bids, Buy, e.rows, bids, asks, bk, bf);
    StaysTame(e.asks, Sell, e.rows, bids, asks, ak, af);
  }

  lemma {:induction false} FollowsFrom(id: string, m: Moment, m': Moment, refused: bool, released: int)
    requires Handled(id, m.rows, m'.rows, m.book, m'.book, refused, released) && m'.refused == (refused && ForBook(id, m.rows))
    requires ForBook(id, m.rows) ==>
               var o := m.rows[RowAt(m.rows, id)];
               BestIs(Facing(m.book, o.side), m'.best) && RefusedIf(o, m'.refused, m'.best, false)
    ensures Follows(Created(id), m, m')
  {
    hide BestIs, RefusedIf, Worked, Answers;
    assert Handled(id, m.rows, m'.rows, m.book, m'.book, m'.refused, released);
  }

  lemma {:induction false} MayHandle(e: Engine, o: Row, bids: set<int>, asks: set<int>)
    requires e.Valid() && Tame(e.bids, bids) && Tame(e.asks, asks) && o.price.Some?
    ensures e.WayIsClear(o) && !e.Own(Opposite(o.side)).Blind()
    ensures BestIs(Facing(e.View(), o.side), Shown(e.Own(Opposite(o.side))))
  {
    hide OrderBookSide.Valid, InStep, RowsOk, Tame, BestIs, Shown, ClearFor;
    SidesAreValid(e);
    TameIsClear(e.Own(Opposite(o.side)), if o.side == Buy then asks else bids, o);
    ShownIsBest(e.Own(Opposite(o.side)));
  }

  lemma {:induction false} SidesAreValid(e: Engine)
    requires e.Valid()
    ensures e.bids.Valid() && e.asks.Valid()
    ensures multiset(e.bids.Queue()) == Booked(e.rows, Buy, KEY) && multiset(e.asks.Queue()) == Booked(e.rows, Sell, KEY) && RowsOk(e.rows)
  {
    hide OrderBookSide.Valid, RowsOk, Booked;
  }

  method PlaceRow(e: Engine, r: Row, ghost m: Moment, ghost bids: set<int>, ghost asks: set<int>) returns (ghost m': Moment)
    requires Sound(e, m, bids, asks) && RowOk(r) && r.status == Pending && RowAt(e.rows, r.id) == |e.rows|
    requires r.price.Some? ==> PriceToBigint(r.price.value) in if r.side == Buy then bids else asks
    modifies e`rows
    ensures Sound(e, m', bids, asks) && Follows(Placed(r), m, m') && e.rows == old(e.rows) + [r] && RowsOk(e.rows)
  {
    hide OrderBookSide.Valid, SidesOk, InStep, RowsOk, BookOf, PriceToBigint, OrderBookSide.IsFlat, Within;
    PlacedWithin(e.rows, r, bids, asks);
    e.Place(r);
    SidesAreValid(e);
    m' := Moment(e.rows, e.View(), false, None);
  }

  lemma {:induction false} PlacedWithin(rows: seq<Row>, r: Row, bids: set<int>, asks: set<int>)
    requires Within(rows, bids, asks) && (r.price.Some? ==> PriceToBigint(r.price.value) in if r.side == Buy then bids else asks)
    ensures Within(rows + [r], bids, asks)
  {
  }

  lemma {:induction false} NamedHas(events: seq<Event>, k: nat)
    requires k < |events| && events[k].Placed? && events[k].row.price.Some?
    ensures PriceToBigint(events[k].row.price.value) in Named(events, events[k].row.side)
  {
    if k < |events| - 1 {
      NamedHas(events[..|events| - 1], k);
    }
    hide PriceToBigint;
  }

  /** An order with this id is among the first k events. */
  ghost predicate PlacedBefore(events: seq<Event>, k: nat, id: string) {
    exists j :: 0 <= j < k && j < |events| && events[j].Placed? && events[j].row.id == id
  }

  /** Every row in the table has been placed. */
  ghost predicate Come(events: seq<Event>, k: nat, rows: seq<Row>) {
    forall i :: 0 <= i < |rows| ==> PlacedBefore(events, k, rows[i].id)
  }

  lemma {:induction false} IsNew(events: seq<Event>, k: nat, rows: seq<Row>)
    requires Orderly(events) && Come(events, k, rows) && k < |events| && events[k].Placed?
    ensures RowAt(rows, events[k].row.id) == |rows|
  {
    forall i | 0 <= i < |rows| ensures rows[i].id != events[k].row.id {
      assert PlacedBefore(events, k, rows[i].id);
    }
  }

  lemma {:induction false} Comes(events: seq<Event>, k: nat, rows: seq<Row>, rows': seq<Row>)
    requires Come(events, k, rows) && k < |events|
    requires Alike(rows, rows') || (events[k].Placed? && rows' == rows + [events[k].row])
    ensures Come(events, k + 1, rows')
  {
    forall i | 0 <= i < |rows'| ensures PlacedBefore(events, k + 1, rows'[i].id) {
      if i < |rows| {
        assert rows'[i].id == rows[i].id && PlacedBefore(events, k, rows[i].id);
      } else {
        assert rows'[i].id == events[k].row.id;
      }
    }
  }

  lemma {:induction false} TraceGrows(events: seq<Event>, k: nat, ms: seq<Moment>, m: Moment)
    requires k < |events| && Traces(events[..k], ms) && Follows(events[k], ms[k], m) && RowsOk(m.rows)
    ensures Traces(events[..k + 1], ms + [m])
  {
    hide Follows, RowsOk;
    var a, b := events[..k], events[..k + 1];
    assert forall j :: 0 <= j < k ==> a[j] == b[j];
  }

  /** Any run of placements and events whose orders name fewer prices on each side than the order of the index, 64 in the
      engine: every event does what the book model says, and the look ahead of a post-only order sees the best price. */
  method Drive(events: seq<Event>, order: int) returns (e: Engine, ghost ms: seq<Moment>)
    requires order >= 2 && Orderly(events) && |Named(events, Buy)| < order && |Named(events, Sell)| < order
    ensures fresh(e) && e.Valid() && Traces(events, ms) && ms[|events|].rows == e.rows && ms[|events|].book == e.View()
  {
    hide OrderBookSide.Valid, SidesOk, InStep, RowsOk, BookOf, PriceToBigint, Follows, Sound, Traces, Alike, Come, Named;
    e := new Engine(order);
    ghost var bids, asks := Named(events, Buy), Named(events, Sell);
    ms := [Moment([], Book([], []), false, None)];
    Begins(e, events, bids, asks);
    for k := 0 to |events|
      invariant |ms| == k + 1 && Traces(events[..k], ms) && Sound(e, ms[k], bids, asks) && Come(events, k, e.rows)
      invariant fresh(e) && fresh(e.bids) && fresh(e.bids.priceTree) && fresh(e.bids.priceTree.repr)
      invariant fresh(e.bids.Levels()) && fresh(e.bids.Orders())
      invariant fresh(e.asks) && fresh(e.asks.priceTree) && fresh(e.asks.priceTree.repr)
      invariant fresh(e.asks.Levels()) && fresh(e.asks.Orders())
    {
      ghost var m, rows := ms[k], e.rows;
      match events[k] {
        case Placed(r) =>
          PlacedRight(events, k);
          IsNew(events, k, e.rows);
          m := PlaceRow(e, r, ms[k], bids, asks);
        case Created(id) =>
          m := Handle(e, id, ms[k], bids, asks);
      }
      Comes(events, k, rows, e.rows);
      SoundMeans(e, m, bids, asks);
      TraceGrows(events, k, ms, m);
      ms := ms + [m];
    }
    assert events[..|events|] == events;
    SoundMeans(e, ms[|events|], bids, asks);
  }

  lemma {:induction false} SoundMeans(e: Engine, m: Moment, bids: set<int>, asks: set<int>)
    requires Sound(e, m, bids, asks)
    ensures e.Valid() && m.rows == e.rows && m.book == e.View() && RowsOk(m.rows)
  {
    hide OrderBookSide.Valid, InStep, RowsOk;
  }

  lemma {:induction false} PlacedRight(events: seq<Event>, k: nat)
    requires Orderly(events) && k < |events| && events[k].Placed?
    ensures var r := events[k].row;
            && RowOk(r) && r.status == Pending
            && (r.price.Some? ==> PriceToBigint(r.price.value) in if r.side == Buy then Named(events, Buy) else Named(events, Sell))
  {
    if events[k].row.price.Some? {
      NamedHas(events, k);
    }
    hide PriceToBigint, Named;
  }

  lemma {:induction false} Begins(e: Engine, events: seq<Event>, bids: set<int>, asks: set<int>)
    requires e.Valid() && e.rows == [] && e.View() == Book([], []) && |bids| < e.bids.priceTree.order && |asks| < e.asks.priceTree.order
    requires e.bids.priceMap == map[] == e.asks.priceMap && e.bids.IsFlat() && e.asks.IsFlat()
    ensures var m := Moment([], Book([], []), false, None);
            Sound(e, m, bids, asks) && Traces(events[..0], [m]) && Come(events, 0, e.rows)
  {
    hide OrderBookSide.Valid, SidesOk, InStep, BookOf, OrderBookSide.IsFlat;
    assert events[..0] == [];
  }

  // ---- what holds of every run

  /** The book is sorted and uncrossed after every event. */
  lemma {:induction false} TraceIsOk(events: seq<Event>, ms: seq<Moment>, k: nat)
    requires Traces(events, ms) && k <= |events|
    ensures BookOk(ms[k].book)
  {
    hide BookOk, RowsOk, Handled, RefusedIf, BestIs;
    if k == 0 {
      Runs.EmptyOk();
    } else {
      TraceIsOk(events, ms, k - 1);
      assert Follows(events[k - 1], ms[k - 1], ms[k]);
      match events[k - 1]
      case Placed(_) =>
      case Created(id) =>
        var m, m' := ms[k - 1], ms[k];
        var released :| Handled(id, m.rows, m'.rows, m.book, m'.book, m'.refused, released);
        HandledOk(id, m.rows, m'.rows, m.book, m'.book, m'.refused, released);
    }
  }

  /** It is the book a run of the orders let in would leave in the model of one market, so what is proved of those runs,
      that quantity is conserved, limits are kept and nobody trades more than ordered, holds of this engine. */
  lemma {:induction false} TraceIsRun(events: seq<Event>, ms: seq<Moment>)
    requires Traces(events, ms)
    ensures ms[|events|].book == Runs.Run(Admitted(events, ms))
    ensures forall op :: op in Admitted(events, ms) ==> Runs.Valid(op)
  {
    hide Handled, RefusedIf, BestIs, Process, RowsOk;
    if events != [] {
      var n := |events| - 1;
      TraceBefore(events, ms);
      var before := Admitted(events[..n], ms[..n + 1]);
      TraceIsRun(events[..n], ms[..n + 1]);
      assert Follows(events[n], ms[n], ms[n + 1]);
      if events[n].Created? {
        EventIsOp(events[n].id, ms[n], ms[n + 1], before);
      }
    }
  }

  lemma {:induction false} TraceBefore(events: seq<Event>, ms: seq<Moment>)
    requires Traces(events, ms) && events != []
    ensures var n := |events| - 1; Traces(events[..n], ms[..n + 1])
  {
    hide Follows, RowsOk;
  }

  lemma {:induction false} EventIsOp(id: string, m: Moment, m': Moment, before: seq<Runs.Op>)
    requires Follows(Created(id), m, m') && m.book == Runs.Run(before) && RowsOk(m.rows)
    ensures if ForBook(id, m.rows) && !m'.refused
            then var op := Runs.Submit(OrderOf(m.rows[RowAt(m.rows, id)])); m'.book == Runs.Run(before + [op]) && Runs.Valid(op)
            else m'.book == m.book
  {
    hide BestIs, Process, Worked, RefusedIf;
    var released :| Handled(id, m.rows, m'.rows, m.book, m'.book, m'.refused, released);
    if ForBook(id, m.rows) && !m'.refused {
      var op := Runs.Submit(OrderOf(m.rows[RowAt(m.rows, id)]));
      var ops := before + [op];
      assert ops[..|ops| - 1] == before && ops[|ops| - 1] == op;
      PendingWants(m.rows, RowAt(m.rows, id));
    }
  }

  /** With its own price and the best one on the grid, a post-only order never trades on entry. */
  lemma {:induction false} PostOnlyRests(events: seq<Event>, ms: seq<Moment>, k: nat)
    requires Traces(events, ms) && k < |events| && events[k].Created? && ForBook(events[k].id, ms[k].rows)
    requires var o := ms[k].rows[RowAt(ms[k].rows, events[k].id)];
             o.postOnly && OnGrid(o.price.value) && (ms[k + 1].best.Some? ==> OnGrid(ms[k + 1].best.value))
    ensures var i := RowAt(ms[k].rows, events[k].id); i < |ms[k + 1].rows| && ms[k + 1].rows[i].filled == 0
  {
    hide BookOk, Worked, RefusedIf, BestIs, Answers, PriceToBigint, OnGrid, Refuses, RowsOk;
    var m, m', id := ms[k], ms[k + 1], events[k].id;
    var i := RowAt(m.rows, id);
    TraceIsOk(events, ms, k);
    FacingPositive(m.book, m.rows[i].side);
    assert Follows(events[k], m, m');
    var released :| Handled(id, m.rows, m'.rows, m.book, m'.book, m'.refused, released);
    PendingWants(m.rows, i);
    NeverTakes(m.rows[i], m, m', i);
  }

  lemma {:induction false} FacingPositive(b: Book, side: Side)
    requires BookOk(b)
    ensures Positive(Facing(b, side))
  {
    hide Priority, Uncrossed;
  }

  lemma {:induction false} NeverTakes(o: Row, m: Moment, m': Moment, i: nat)
    requires o.price.Some? && o.postOnly && o.remaining > 0 && o.filled == 0 && i < |m'.rows|
    requires Answers(o, m'.refused, m.book, m'.book, m'.rows[i]) && RefusedIf(o, m'.refused, m'.best, false)
    requires Positive(Facing(m.book, o.side)) && BestIs(Facing(m.book, o.side), m'.best)
    requires OnGrid(o.price.value) && (m'.best.Some? ==> OnGrid(m'.best.value))
    ensures m'.rows[i].filled == 0
  {
    PostOnlyOnGrid(o, m'.refused, m.book, m'.book, m'.rows[i], m'.best, false);
    PostOnlyTradesIff(o, m'.refused, m.book, m'.book, m'.rows[i], m'.best, false);
    FilledAtLeast(o, m'.refused, m.book, m'.book, m'.rows[i]);
    hide Answers, RefusedIf, PriceToBigint, OnGrid;
  }

  lemma {:induction false} FilledAtLeast(o: Row, refused: bool, b: Book, b': Book, r: Row)
    requires o.price.Some? && o.remaining > 0 && o.filled == 0 && Answers(o, refused, b, b', r) && Positive(Facing(b, o.side))
    ensures r.filled >= 0
  {
    FirstFill(o.side, Some(PriceToBigint(o.price.value)), Facing(b, o.side), o.remaining);
    FillsConserve(o.side, Some(PriceToBigint(o.price.value)), Facing(b, o.side), o.remaining);
    hide PriceToBigint, Fills, Rest, FilledQty;
  }
}
