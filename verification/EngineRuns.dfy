/** Whole runs of one market: the book is never crossed, and no quantity is created or lost. */
module EngineRuns {
  import opened SortedEntries
  import opened ReferenceBook
  import opened EngineModel

  datatype Op = Submit(order: Order) | Withdraw(id: string, side: Side, price: int)

  /** What one operation did with quantity. */
  datatype Event =
    | Submitted(order: Order, fills: seq<MatchResult>, rested: int, dropped: int)
    | Withdrawn(id: string, qty: int)

  predicate Valid(op: Op) {
    op.Submit? ==> op.order.qty > 0 && op.order.kind in {LimitOrder, MarketOrder}
  }

  ghost function Step(b: Book, op: Op): Book {
    match op
    case Submit(o) => Process(b, o).0
    case Withdraw(id, side, price) => Cancel(b, id, side, price)
  }

  /** The quantity of the order that a withdrawal takes out. */
  ghost function Taken(q: seq<Maker>, id: string, price: int): int {
    if q == [] then 0
    else if q[0].id == id && q[0].price == price then q[0].qty
    else Taken(q[1..], id, price)
  }

  /** The record of one operation, read off the engine's answer. */
  ghost function Record(b: Book, op: Op): Event {
    match op
    case Submit(o) =>
      var (_, out) := Process(b, o);
      (match out
       case Accepted => Submitted(o, [], o.qty, 0)
       case Rejected => Submitted(o, [], 0, o.qty)
       case Filled(ms) => Submitted(o, ms, 0, o.qty - FilledQty(ms))
       case PartiallyFilled(ms, remaining) => Submitted(o, ms, remaining, 0))
    case Withdraw(id, side, price) => Withdrawn(id, Taken(Facing(b, Opposite(side)), id, price))
  }

  ghost function Run(ops: seq<Op>): Book {
    if ops == [] then Book([], []) else Step(Run(ops[..|ops| - 1]), ops[|ops| - 1])
  }

  ghost function Log(ops: seq<Op>): seq<Event> {
    if ops == [] then []
    else Log(ops[..|ops| - 1]) + [Record(Run(ops[..|ops| - 1]), ops[|ops| - 1])]
  }

  /** Over every run the book is sorted, holds only positive quantities, and every bid is below every ask. */
  lemma {:induction false} RunOk(ops: seq<Op>)
    requires forall op :: op in ops ==> Valid(op)
    ensures BookOk(Run(ops))
  {
    hide BookOk;
    if ops == [] {
      EmptyOk();
    } else {
      var b, op := Run(ops[..|ops| - 1]), ops[|ops| - 1];
      assert op in ops;
      RunOk(ops[..|ops| - 1]);
      match op
      case Submit(o) => ProcessOk(b, o);
      case Withdraw(id, side, price) => CancelOk(b, id, side, price);
    }
  }

  lemma {:induction false} EmptyOk()
    ensures BookOk(Book([], []))
  {
  }

  // ---- accounting, order by order

  ghost function RestingOf(id: string, q: seq<Maker>): int {
    if q == [] then 0 else (if q[0].id == id then q[0].qty else 0) + RestingOf(id, q[1..])
  }

  ghost function Resting(id: string, b: Book): int { RestingOf(id, b.bids) + RestingOf(id, b.asks) }

  /** What the order gave as a maker in a list of fills. */
  ghost function GivenBy(id: string, ms: seq<MatchResult>): int {
    if ms == [] then 0 else (if ms[0].makerOrderId == id then ms[0].quantity else 0) + GivenBy(id, ms[1..])
  }

  datatype Account = Account(submitted: int, taken: int, given: int, withdrawn: int, dropped: int)

  ghost function Entry(id: string, e: Event): Account {
    match e
    case Submitted(o, ms, _, dropped) =>
      var mine := o.id == id;
      Account(if mine then o.qty else 0, if mine then FilledQty(ms) else 0, GivenBy(id, ms), 0, if mine then dropped else 0)
    case Withdrawn(i, qty) => Account(0, 0, 0, if i == id then qty else 0, 0)
  }

  ghost function Plus(a: Account, b: Account): Account {
    Account(a.submitted + b.submitted, a.taken + b.taken, a.given + b.given, a.withdrawn + b.withdrawn, a.dropped + b.dropped)
  }

  ghost function AccountOf(id: string, log: seq<Event>): Account {
    if log == [] then Account(0, 0, 0, 0, 0) else Plus(AccountOf(id, log[..|log| - 1]), Entry(id, log[|log| - 1]))
  }

  lemma {:induction false} EnqueueResting(id: string, taker: Side, q: seq<Maker>, m: Maker)
    ensures RestingOf(id, Enqueue(taker, q, m)) == RestingOf(id, q) + if m.id == id then m.qty else 0
  {
    if q == [] || Better(taker, m.price, q[0].price) {
      assert ([m] + q)[1..] == q;
    } else {
      EnqueueResting(id, taker, q[1..], m);
      assert ([q[0]] + Enqueue(taker, q[1..], m))[1..] == Enqueue(taker, q[1..], m);
    }
  }

  lemma {:induction false} RemoveResting(id: string, q: seq<Maker>, gone: string, price: int)
    ensures RestingOf(id, Remove(q, gone, price)) == RestingOf(id, q) - if gone == id then Taken(q, gone, price) else 0
  {
    if q == [] {
    } else if q[0].id == gone && q[0].price == price {
    } else {
      RemoveResting(id, q[1..], gone, price);
      assert ([q[0]] + Remove(q[1..], gone, price))[1..] == Remove(q[1..], gone, price);
    }
  }

  lemma {:induction false} FillsResting(id: string, taker: Side, limit: Limit, q: seq<Maker>, qty: int)
    requires Positive(q) && qty >= 0
    ensures RestingOf(id, Rest(taker, limit, q, qty)) + GivenBy(id, Fills(taker, limit, q, qty)) == RestingOf(id, q)
  {
    if !Stops(taker, limit, q, qty) {
      var f := MinQty(qty, q[0].qty);
      var tail := Fills(taker, limit, q[1..], qty - f);
      assert ([FillOf(q[0], f)] + tail)[1..] == tail;
      FillsResting(id, taker, limit, q[1..], qty - f);
      if f < q[0].qty {
        assert Stops(taker, limit, q[1..], 0);
        var m := q[0].(qty := q[0].qty - qty);
        assert ([m] + q[1..])[1..] == q[1..];
      }
    }
  }

  /** One operation moves quantity between the columns of an order's account and its resting quantity, and no more. */
  lemma {:induction false} StepBalances(id: string, b: Book, op: Op)
    requires BookOk(b) && Valid(op)
    ensures var a := Entry(id, Record(b, op));
            a.submitted == a.taken + a.given + a.withdrawn + a.dropped + Resting(id, Step(b, op)) - Resting(id, b)
  {
    match op
    case Submit(o) => SubmitBalances(id, b, o);
    case Withdraw(gone, side, price) => RemoveResting(id, Facing(b, Opposite(side)), gone, price);
  }

  lemma {:induction false} SubmitBalances(id: string, b: Book, o: Order)
    requires BookOk(b) && Valid(Submit(o))
    ensures var a := Entry(id, Record(b, Submit(o)));
            a.submitted == a.taken + a.given + a.dropped + Resting(id, Step(b, Submit(o))) - Resting(id, b)
  {
    hide Trades, AfterTrades, Resting, WouldMatch, Add, BookOk, FilledQty, GivenBy;
    TradesBalance(id, b, o);
    if Trades(b, o) == [] {
      RefusedBalance(id, b, o);
    }
    NothingGiven(id);
    AddResting(id, AfterTrades(b, o), o, o.qty);
    AddResting(id, AfterTrades(b, o), o, o.qty - FilledQty(Trades(b, o)));
  }

  /** What makers give up is what they gave. */
  lemma {:induction false} TradesBalance(id: string, b: Book, o: Order)
    requires BookOk(b) && o.qty > 0
    ensures Resting(id, AfterTrades(b, o)) + GivenBy(id, Trades(b, o)) == Resting(id, b)
  {
    FillsResting(id, o.side, LimitOf(o), Facing(b, o.side), o.qty);
    hide Rest, Fills, GivenBy, RestingOf;
  }

  lemma {:induction false} NothingGiven(id: string)
    ensures FilledQty([]) == 0 && GivenBy(id, []) == 0
  {
  }

  lemma {:induction false} RefusedBalance(id: string, b: Book, o: Order)
    requires BookOk(b) && o.qty > 0 && Trades(b, o) == []
    ensures AfterTrades(b, o) == b && FilledQty(Trades(b, o)) == 0 && GivenBy(id, Trades(b, o)) == 0
  {
    AfterTradesOk(b, o);
    hide BookOk, AfterTrades;
  }

  lemma {:induction false} AddResting(id: string, b: Book, o: Order, qty: int)
    ensures Resting(id, Add(b, o, qty)) == Resting(id, b) + if o.id == id then qty else 0
  {
    var taker := Opposite(o.side);
    EnqueueResting(id, taker, Facing(b, taker), Maker(o.id, o.user, o.price, qty));
  }

  /** For every order id, over every run: submitted = taken + given + withdrawn + dropped + still resting. */
  lemma {:induction false} RunBalances(id: string, ops: seq<Op>)
    requires forall op :: op in ops ==> Valid(op)
    ensures var a := AccountOf(id, Log(ops));
            a.submitted == a.taken + a.given + a.withdrawn + a.dropped + Resting(id, Run(ops))
  {
    if ops != [] {
      var n := |ops| - 1;
      RunBalances(id, ops[..n]);
      RunOk(ops[..n]);
      StepBalances(id, Run(ops[..n]), ops[n]);
      assert Log(ops)[..|Log(ops)| - 1] == Log(ops[..n]);
    }
    hide Step, Record, Entry, Resting, BookOk;
  }

  // ---- every fill of a run is within the limits of both sides

  /** Every fill is positive, and a limit order pays no more and gets no less than its price. */
  ghost predicate FairFills(e: Event) {
    e.Submitted? ==>
      forall m :: m in e.fills ==>
        && m.quantity > 0
        && (e.order.kind == LimitOrder ==> if e.order.side == Buy then m.price <= e.order.price else m.price >= e.order.price)
  }

  lemma {:induction false} RunIsFair(ops: seq<Op>)
    requires forall op :: op in ops ==> Valid(op)
    ensures forall e :: e in Log(ops) ==> FairFills(e)
  {
    if ops != [] {
      var n := |ops| - 1;
      RunIsFair(ops[..n]);
      RunOk(ops[..n]);
      RecordIsFair(Run(ops[..n]), ops[n]);
    }
  }

  lemma {:induction false} RecordIsFair(b: Book, op: Op)
    requires BookOk(b) && Valid(op)
    ensures FairFills(Record(b, op))
  {
    if op.Submit? {
      var o := op.order;
      FillsTakeFront(o.side, LimitOf(o), Facing(b, o.side), o.qty);
    }
  }

  /** An order never trades more than was submitted under its id. */
  lemma {:induction false} NeverOverfilled(id: string, ops: seq<Op>)
    requires forall op :: op in ops ==> Valid(op)
    ensures var a := AccountOf(id, Log(ops)); a.taken + a.given <= a.submitted
  {
    RunBalances(id, ops);
    RunOk(ops);
    RestingNonNegative(id, Run(ops).bids);
    RestingNonNegative(id, Run(ops).asks);
    LogNonNegative(id, ops);
  }

  lemma {:induction false} RestingNonNegative(id: string, q: seq<Maker>)
    requires Positive(q)
    ensures RestingOf(id, q) >= 0
  {
    if q != [] {
      RestingNonNegative(id, q[1..]);
    }
  }

  lemma {:induction false} TakenNonNegative(q: seq<Maker>, id: string, price: int)
    requires Positive(q)
    ensures Taken(q, id, price) >= 0
  {
    if q != [] {
      TakenNonNegative(q[1..], id, price);
    }
  }

  lemma {:induction false} LogNonNegative(id: string, ops: seq<Op>)
    requires forall op :: op in ops ==> Valid(op)
    ensures var a := AccountOf(id, Log(ops)); a.withdrawn >= 0 && a.dropped >= 0
  {
    if ops != [] {
      var n := |ops| - 1;
      LogNonNegative(id, ops[..n]);
      RunOk(ops[..n]);
      assert Log(ops)[..|Log(ops)| - 1] == Log(ops[..n]);
      assert ops[n] in ops;
      EntryNonNegative(id, Run(ops[..n]), ops[n]);
    }
    hide Run, Record, BookOk, Entry;
  }

  lemma {:induction false} EntryNonNegative(id: string, b: Book, op: Op)
    requires BookOk(b) && Valid(op)
    ensures var a := Entry(id, Record(b, op)); a.withdrawn >= 0 && a.dropped >= 0
  {
    match op
    case Submit(o) => FillsConserve(o.side, LimitOf(o), Facing(b, o.side), o.qty);
    case Withdraw(i, side, price) => TakenNonNegative(Facing(b, Opposite(side)), i, price);
  }

  // ---- what rests over a run

  /** Only limit orders good till cancelled come to rest; of those nothing is dropped, unless a post-only one is refused. */
  ghost predicate RestsRightly(e: Event) {
    e.Submitted? ==>
      && (e.rested > 0 ==> e.order.kind == LimitOrder && e.order.tif == GTC)
      && (e.dropped > 0 ==> e.order.kind == MarketOrder || e.order.tif in {IOC, FOK} || (e.order.postOnly && e.fills == []))
  }

  lemma {:induction false} OnlyLimitsRest(ops: seq<Op>)
    requires forall op :: op in ops ==> Valid(op)
    ensures forall e :: e in Log(ops) ==> RestsRightly(e)
  {
    if ops != [] {
      var n := |ops| - 1;
      OnlyLimitsRest(ops[..n]);
      RunOk(ops[..n]);
      assert ops[n] in ops;
      RecordRests(Run(ops[..n]), ops[n]);
    }
    hide RestsRightly, Valid, BookOk, Record;
  }

  lemma {:induction false} RecordRests(b: Book, op: Op)
    requires BookOk(b) && Valid(op)
    ensures RestsRightly(Record(b, op))
  {
    if op.Submit? {
      var o := op.order;
      FillsConserve(o.side, LimitOf(o), Facing(b, o.side), o.qty);
      hide Fills, Rest, BookOk, FilledQty;
    }
  }

  /** The operation submitted a limit order, good till cancelled, of this side, and m is what is left of it. */
  ghost predicate Left(op: Op, m: Maker, side: Side) {
    && op.Submit? && op.order.kind == LimitOrder && op.order.tif == GTC && op.order.side == side
    && m.id == op.order.id && m.user == op.order.user && m.price == op.order.price && 0 < m.qty <= op.order.qty
  }

  ghost predicate AllLeft(ops: seq<Op>, q: seq<Maker>, side: Side) {
    forall m :: m in q ==> exists op :: op in ops && Left(op, m, side)
  }

  /** Whatever rests after a run was submitted in it as a limit order good till cancelled. */
  lemma {:induction false} MakersWereSubmitted(ops: seq<Op>)
    requires forall op :: op in ops ==> Valid(op)
    ensures AllLeft(ops, Run(ops).bids, Buy) && AllLeft(ops, Run(ops).asks, Sell)
  {
    hide AllLeft, BookOk, Process;
    if ops == [] {
      NoneLeft();
    } else {
      var n := |ops| - 1;
      var b := Run(ops[..n]);
      MakersWereSubmitted(ops[..n]);
      RunOk(ops[..n]);
      LeftLater(ops, b.bids, Buy);
      LeftLater(ops, b.asks, Sell);
      match ops[n] {
        case Submit(o) => ProcessLeft(ops, b, o);
        case Withdraw(id, side, price) => RemoveLeft(ops, Facing(b, Opposite(side)), id, price, side);
      }
    }
  }

  lemma {:induction false} NoneLeft()
    ensures AllLeft([], [], Buy) && AllLeft([], [], Sell)
  {
  }

  lemma {:induction false} LeftLater(ops: seq<Op>, q: seq<Maker>, side: Side)
    requires ops != [] && AllLeft(ops[..|ops| - 1], q, side)
    ensures AllLeft(ops, q, side)
  {
    forall m | m in q ensures exists op :: op in ops && Left(op, m, side) {
      var op :| op in ops[..|ops| - 1] && Left(op, m, side);
      assert op in ops;
    }
    hide Left;
  }

  lemma {:induction false} PartLeft(ops: seq<Op>, q: seq<Maker>, part: seq<Maker>, side: Side)
    requires AllLeft(ops, q, side) && forall i :: 0 <= i < |part| ==> part[i] in q
    ensures AllLeft(ops, part, side)
  {
    hide Left;
  }

  lemma {:induction false} RemoveLeft(ops: seq<Op>, q: seq<Maker>, id: string, price: int, side: Side)
    requires AllLeft(ops, q, side)
    ensures AllLeft(ops, Remove(q, id, price), side)
  {
    RemoveIsPart(q, id, price);
    PartLeft(ops, q, Remove(q, id, price), side);
    hide AllLeft, Remove;
  }

  lemma {:induction false} RemoveIsPart(q: seq<Maker>, id: string, price: int)
    ensures forall i :: 0 <= i < |Remove(q, id, price)| ==> Remove(q, id, price)[i] in q
  {
    if q != [] {
      RemoveIsPart(q[1..], id, price);
    }
  }

  lemma {:induction false} RestLeft(ops: seq<Op>, q: seq<Maker>, taker: Side, limit: Limit, qty: int, side: Side)
    requires AllLeft(ops, q, side) && Positive(q)
    ensures AllLeft(ops, Rest(taker, limit, q, qty), side)
  {
    if !Stops(taker, limit, q, qty) {
      PartLeft(ops, q, q[1..], side);
      if q[0].qty <= qty {
        RestLeft(ops, q[1..], taker, limit, qty - q[0].qty, side);
      } else {
        LessLeft(ops, q, qty, side);
      }
    }
    hide AllLeft;
  }

  lemma {:induction false} LessLeft(ops: seq<Op>, q: seq<Maker>, qty: int, side: Side)
    requires q != [] && AllLeft(ops, q, side) && 0 < qty < q[0].qty
    ensures AllLeft(ops, [q[0].(qty := q[0].qty - qty)] + q[1..], side)
  {
    var less := q[0].(qty := q[0].qty - qty);
    assert q[0] in q;
    var op :| op in ops && Left(op, q[0], side);
    forall m | m in [less] + q[1..] ensures exists o :: o in ops && Left(o, m, side) {
      if m == less {
        assert Left(op, m, side);
      } else {
        assert m in q;
      }
    }
  }

  lemma {:induction false} EnqueueLeft(ops: seq<Op>, q: seq<Maker>, taker: Side, m: Maker, op: Op, side: Side)
    requires AllLeft(ops, q, side) && op in ops && Left(op, m, side)
    ensures AllLeft(ops, Enqueue(taker, q, m), side)
  {
    EnqueueAdds(taker, q, m);
    hide Enqueue, Left;
  }

  lemma {:induction false} ProcessLeft(ops: seq<Op>, b: Book, o: Order)
    requires BookOk(b) && Valid(Submit(o)) && Submit(o) in ops && AllLeft(ops, b.bids, Buy) && AllLeft(ops, b.asks, Sell)
    ensures var b' := Process(b, o).0; AllLeft(ops, b'.bids, Buy) && AllLeft(ops, b'.asks, Sell)
  {
    hide AllLeft, Rest, Enqueue, Fills, FilledQty, Left;
    RestsIff(b, o);
    RestLeft(ops, Facing(b, o.side), o.side, LimitOf(o), o.qty, Opposite(o.side));
    FillsConserve(o.side, LimitOf(o), Facing(b, o.side), o.qty);
    var taken := FilledQty(Trades(b, o));
    if o.kind == LimitOrder && o.tif == GTC {
      WholeOrRest(o, o.qty);
      EnqueueLeft(ops, Own(b, o.side), Opposite(o.side), Maker(o.id, o.user, o.price, o.qty), Submit(o), o.side);
      if taken < o.qty {
        WholeOrRest(o, o.qty - taken);
        EnqueueLeft(ops, Own(b, o.side), Opposite(o.side), Maker(o.id, o.user, o.price, o.qty - taken), Submit(o), o.side);
      }
    }
  }

  lemma {:induction false} WholeOrRest(o: Order, qty: int)
    requires o.kind == LimitOrder && o.tif == GTC && 0 < qty <= o.qty
    ensures Left(Submit(o), Maker(o.id, o.user, o.price, qty), o.side)
  {
  }
}
