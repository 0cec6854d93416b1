/** The second engine and the ledger together: whatever the engine trades, the ledger can settle. */
module Settlement {
  import opened SortedEntries
  import opened ReferenceBook
  import opened EngineModel
  import E = EngineRuns
  import L = Ledger

  /** One fill of a run, with the order that took it. */
  datatype Fill = Fill(order: Order, m: MatchResult)

  ghost function Tagged(o: Order, ms: seq<MatchResult>): seq<Fill> {
    if ms == [] then [] else [Fill(o, ms[0])] + Tagged(o, ms[1..])
  }

  ghost function FillsIn(e: E.Event): seq<Fill> {
    if e.Submitted? then Tagged(e.order, e.fills) else []
  }

  /** Every fill of a run, in order. */
  ghost function FillsOf(log: seq<E.Event>): seq<Fill> {
    if log == [] then [] else FillsOf(log[..|log| - 1]) + FillsIn(log[|log| - 1])
  }

  ghost function TradeOf(f: Fill, market: string, id: string, makerFee: int, takerFee: int): L.Trade {
    var (o, m) := (f.order, f.m);
    if o.side == Buy
    then L.Trade(id, market, o.id, m.makerOrderId, o.user, m.makerUserId, m.price, m.quantity, makerFee, takerFee, Buy)
    else L.Trade(id, market, m.makerOrderId, o.id, m.makerUserId, o.user, m.price, m.quantity, makerFee, takerFee, Sell)
  }

  /** The trade events tell the fills, each under an id of its own, with fees that the trade can bear. */
  ghost predicate Reports(ts: seq<L.Trade>, fs: seq<Fill>, market: string) {
    && |ts| == |fs|
    && (forall k :: 0 <= k < |ts| ==> && ts[k] == TradeOf(fs[k], market, ts[k].id, ts[k].makerFee, ts[k].takerFee)
                                      && L.SellerFee(ts[k]) <= ts[k].price * ts[k].quantity)
    && forall j, k :: 0 <= j < k < |ts| ==> ts[j].id != ts[k].id
  }

  ghost function Amount(t: L.Trade, id: string): int {
    (if t.buyOrder == id then t.quantity else 0) + (if t.sellOrder == id then t.quantity else 0)
  }

  /** What the settled trades took from the order. */
  ghost function SettledFor(ts: seq<L.Trade>, done: set<string>, id: string): int {
    if ts == [] then 0 else (if ts[0].id in done then Amount(ts[0], id) else 0) + SettledFor(ts[1..], done, id)
  }

  ghost function FilledFor(fs: seq<Fill>, id: string): int {
    if fs == [] then 0
    else
      var f := fs[0];
      (if f.order.id == id then f.m.quantity else 0) + (if f.m.makerOrderId == id then f.m.quantity else 0) + FilledFor(fs[1..], id)
  }

  // ---- quantities: the trades of an order add up to what it took and gave

  lemma {:induction false} FilledForAppend(a: seq<Fill>, b: seq<Fill>, id: string)
    ensures FilledFor(a + b, id) == FilledFor(a, id) + FilledFor(b, id)
  {
    if a == [] {
      assert a + b == b;
    } else {
      assert (a + b)[0] == a[0] && (a + b)[1..] == a[1..] + b;
      FilledForAppend(a[1..], b, id);
    }
  }

  lemma {:induction false} TaggedFor(o: Order, ms: seq<MatchResult>, id: string)
    ensures FilledFor(Tagged(o, ms), id) == (if o.id == id then FilledQty(ms) else 0) + E.GivenBy(id, ms)
  {
    if ms != [] {
      TaggedFor(o, ms[1..], id);
      assert Tagged(o, ms)[1..] == Tagged(o, ms[1..]);
    }
  }

  lemma {:induction false} LogFor(log: seq<E.Event>, id: string)
    ensures FilledFor(FillsOf(log), id) == E.AccountOf(id, log).taken + E.AccountOf(id, log).given
  {
    if log != [] {
      var e := log[|log| - 1];
      LogFor(log[..|log| - 1], id);
      FilledForAppend(FillsOf(log[..|log| - 1]), FillsIn(e), id);
      if e.Submitted? {
        TaggedFor(e.order, e.fills, id);
      }
    }
    hide FilledFor;
  }

  lemma {:induction false} SettledAtMost(ts: seq<L.Trade>, fs: seq<Fill>, market: string, done: set<string>, id: string)
    requires Reports(ts, fs, market) && forall k :: 0 <= k < |fs| ==> fs[k].m.quantity > 0
    ensures 0 <= SettledFor(ts, done, id) <= FilledFor(fs, id)
  {
    if ts != [] {
      assert ts[0] == TradeOf(fs[0], market, ts[0].id, ts[0].makerFee, ts[0].takerFee);
      assert Reports(ts[1..], fs[1..], market);
      SettledAtMost(ts[1..], fs[1..], market, done, id);
    }
  }

  lemma {:induction false} SettledOneMore(ts: seq<L.Trade>, done: set<string>, k: nat, id: string)
    requires k < |ts| && ts[k].id !in done && forall i, j :: 0 <= i < j < |ts| ==> ts[i].id != ts[j].id
    ensures SettledFor(ts, done + {ts[k].id}, id) == SettledFor(ts, done, id) + Amount(ts[k], id)
  {
    if k == 0 {
      SettledElsewhere(ts[1..], done, ts[0].id, id);
    } else {
      assert ts[0].id != ts[k].id;
      SettledOneMore(ts[1..], done, k - 1, id);
    }
    hide Amount;
  }

  lemma {:induction false} SettledElsewhere(ts: seq<L.Trade>, done: set<string>, other: string, id: string)
    requires forall k :: 0 <= k < |ts| ==> ts[k].id != other
    ensures SettledFor(ts, done + {other}, id) == SettledFor(ts, done, id)
  {
    if ts != [] {
      SettledElsewhere(ts[1..], done, other, id);
    }
    hide Amount;
  }

  /** No trade of the order is settled. */
  ghost predicate Untouched(ts: seq<L.Trade>, done: set<string>, id: string) {
    forall k :: 0 <= k < |ts| && Amount(ts[k], id) != 0 ==> ts[k].id !in done
  }

  lemma {:induction false} NothingSettled(ts: seq<L.Trade>, done: set<string>, id: string)
    requires Untouched(ts, done, id)
    ensures SettledFor(ts, done, id) == 0
  {
    if ts != [] {
      NothingSettled(ts[1..], done, id);
    }
  }

  // ---- provenance: every maker is an order of the run

  ghost predicate IsLimitRun(ops: seq<E.Op>) {
    && (forall op :: op in ops ==> E.Valid(op) && (op.Submit? ==> op.order.kind == LimitOrder))
    && forall i, j :: 0 <= i < j < |ops| && ops[i].Submit? && ops[j].Submit? ==> ops[i].order.id != ops[j].order.id
  }

  ghost predicate Submitted(ops: seq<E.Op>, id: string, user: string, price: int, side: Side) {
    exists k :: 0 <= k < |ops| && IsOrder(ops[k], id, user, price, side)
  }

  predicate IsOrder(op: E.Op, id: string, user: string, price: int, side: Side) {
    op.Submit? && op.order.id == id && op.order.user == user && op.order.price == price && op.order.side == side
  }

  ghost predicate Known(ops: seq<E.Op>, q: seq<Maker>, side: Side) {
    forall m :: m in q ==> Submitted(ops, m.id, m.user, m.price, side)
  }

  lemma {:induction false} KnownLater(ops: seq<E.Op>, q: seq<Maker>, side: Side)
    requires ops != [] && Known(ops[..|ops| - 1], q, side)
    ensures Known(ops, q, side)
  {
    forall m | m in q ensures Submitted(ops, m.id, m.user, m.price, side) {
      var k :| 0 <= k < |ops| - 1 && IsOrder(ops[..|ops| - 1][k], m.id, m.user, m.price, side);
      assert IsOrder(ops[k], m.id, m.user, m.price, side);
    }
  }

  lemma {:induction false} RestKnown(ops: seq<E.Op>, q: seq<Maker>, taker: Side, limit: Limit, qty: int, side: Side)
    requires Known(ops, q, side) && Priority(taker, q)
    ensures Known(ops, Rest(taker, limit, q, qty), side)
  {
    RestKeepsPriority(taker, limit, q, qty);
    hide Rest, Submitted;
  }

  lemma {:induction false} EnqueueKnown(ops: seq<E.Op>, q: seq<Maker>, taker: Side, m: Maker, side: Side)
    requires Known(ops, q, side) && Submitted(ops, m.id, m.user, m.price, side)
    ensures Known(ops, Enqueue(taker, q, m), side)
  {
    EnqueueAdds(taker, q, m);
    hide Enqueue, Submitted;
  }

  ghost predicate BookKnown(ops: seq<E.Op>, b: Book) {
    Known(ops, b.bids, Buy) && Known(ops, b.asks, Sell)
  }

  lemma {:induction false} AddKnown(ops: seq<E.Op>, b: Book, o: Order, qty: int)
    requires BookKnown(ops, b) && Submitted(ops, o.id, o.user, o.price, o.side)
    ensures BookKnown(ops, Add(b, o, qty))
  {
    var taker := Opposite(o.side);
    EnqueueKnown(ops, Facing(b, taker), taker, Maker(o.id, o.user, o.price, qty), o.side);
    hide Known, Submitted, Enqueue;
  }

  lemma {:induction false} ProcessKnown(ops: seq<E.Op>, b: Book, o: Order)
    requires BookKnown(ops, b) && BookOk(b) && Submitted(ops, o.id, o.user, o.price, o.side)
    ensures BookKnown(ops, Process(b, o).0)
  {
    RestKnown(ops, Facing(b, o.side), o.side, LimitOf(o), o.qty, Opposite(o.side));
    var b' := AfterTrades(b, o);
    assert BookKnown(ops, b');
    AddKnown(ops, b', o, o.qty);
    AddKnown(ops, b', o, o.qty - FilledQty(Trades(b, o)));
    hide Known, Submitted, AfterTrades, Trades, Add, WouldMatch;
  }

  lemma {:induction false} RunKnown(ops: seq<E.Op>)
    requires forall op :: op in ops ==> E.Valid(op)
    ensures BookKnown(ops, E.Run(ops))
  {
    if ops != [] {
      var n := |ops| - 1;
      var b := E.Run(ops[..n]);
      RunKnown(ops[..n]);
      E.RunOk(ops[..n]);
      KnownLater(ops, b.bids, Buy);
      KnownLater(ops, b.asks, Sell);
      match ops[n]
      case Submit(o) =>
        assert IsOrder(ops[n], o.id, o.user, o.price, o.side);
        ProcessKnown(ops, b, o);
      case Withdraw(id, side, price) =>
        RemoveKeepsPriority(Opposite(side), Facing(b, Opposite(side)), id, price);
    }
    hide Submitted, BookOk, Process;
  }

  /** The fill is between two submitted orders of opposite sides, at the maker's price and within the taker's. */
  ghost predicate FillKnown(ops: seq<E.Op>, f: Fill) {
    && Submitted(ops, f.order.id, f.order.user, f.order.price, f.order.side)
    && Submitted(ops, f.m.makerOrderId, f.m.makerUserId, f.m.price, Opposite(f.order.side))
    && f.m.quantity > 0 && Crosses(f.order.side, Some(f.order.price), f.m.price)
  }

  lemma {:induction false} TaggedIn(o: Order, ms: seq<MatchResult>)
    ensures forall f :: f in Tagged(o, ms) ==> f.order == o && f.m in ms
  {
    if ms != [] {
      TaggedIn(o, ms[1..]);
    }
  }

  lemma {:induction false} SubmittedLater(ops: seq<E.Op>, id: string, user: string, price: int, side: Side)
    requires ops != [] && Submitted(ops[..|ops| - 1], id, user, price, side)
    ensures Submitted(ops, id, user, price, side)
  {
    var k :| 0 <= k < |ops| - 1 && IsOrder(ops[..|ops| - 1][k], id, user, price, side);
    assert IsOrder(ops[k], id, user, price, side);
  }

  lemma {:induction false} TradeKnown(ops: seq<E.Op>, b: Book, o: Order, m: MatchResult)
    requires BookOk(b) && BookKnown(ops, b) && o.qty > 0 && m in Trades(b, o)
    ensures Submitted(ops, m.makerOrderId, m.makerUserId, m.price, Opposite(o.side))
    ensures m.quantity > 0 && Crosses(o.side, LimitOf(o), m.price)
  {
    var q := Facing(b, o.side);
    FillsTakeFront(o.side, LimitOf(o), q, o.qty);
    var i :| 0 <= i < |Trades(b, o)| && Trades(b, o)[i] == m;
    assert q[i] in q;
    hide Submitted, Fills;
  }

  lemma {:induction false} RecordedFills(b: Book, op: E.Op)
    ensures forall f :: f in FillsIn(E.Record(b, op)) ==> op.Submit? && f.order == op.order && f.m in Trades(b, op.order)
  {
    if op.Submit? {
      TaggedIn(op.order, Trades(b, op.order));
    }
    hide Trades, AfterTrades, FilledQty, Add, WouldMatch, Tagged;
  }

  lemma {:induction false} StepFillsKnown(ops: seq<E.Op>, f: Fill)
    requires IsLimitRun(ops) && ops != [] && f in FillsIn(E.Record(E.Run(ops[..|ops| - 1]), ops[|ops| - 1]))
    ensures FillKnown(ops, f)
  {
    hide Submitted, BookOk, Trades, E.Run, E.Record, FillsIn, Known;
    var n := |ops| - 1;
    var b := E.Run(ops[..n]);
    RecordedFills(b, ops[n]);
    assert ops[n] in ops;
    E.RunOk(ops[..n]);
    RunKnown(ops[..n]);
    KnownLater(ops, b.bids, Buy);
    KnownLater(ops, b.asks, Sell);
    SubmittedHere(ops, n);
    TradeKnown(ops, b, ops[n].order, f.m);
  }

  lemma {:induction false} SubmittedHere(ops: seq<E.Op>, n: nat)
    requires n < |ops| && ops[n].Submit?
    ensures var o := ops[n].order; Submitted(ops, o.id, o.user, o.price, o.side)
  {
    var o := ops[n].order;
    assert IsOrder(ops[n], o.id, o.user, o.price, o.side);
  }

  lemma {:induction false} RunFillsKnown(ops: seq<E.Op>, f: Fill)
    requires IsLimitRun(ops) && f in FillsOf(E.Log(ops))
    ensures FillKnown(ops, f)
  {
    hide Submitted, FillsIn, E.Record, E.Run;
    if ops != [] {
      var n := |ops| - 1;
      assert E.Log(ops)[..|E.Log(ops)| - 1] == E.Log(ops[..n]);
      if f in FillsOf(E.Log(ops[..n])) {
        RunFillsKnown(ops[..n], f);
        SubmittedLater(ops, f.order.id, f.order.user, f.order.price, f.order.side);
        SubmittedLater(ops, f.m.makerOrderId, f.m.makerUserId, f.m.price, Opposite(f.order.side));
      } else {
        StepFillsKnown(ops, f);
      }
    }
  }

  /** Under an id of its own an order is submitted with its own quantity. */
  lemma {:induction false} SubmittedQuantity(ops: seq<E.Op>, k: nat)
    requires IsLimitRun(ops) && k < |ops| && ops[k].Submit?
    ensures E.AccountOf(ops[k].order.id, E.Log(ops)).submitted == ops[k].order.qty
    decreases |ops|
  {
    var n, id := |ops| - 1, ops[k].order.id;
    assert E.Log(ops)[..|E.Log(ops)| - 1] == E.Log(ops[..n]);
    RecordSubmits(id, E.Run(ops[..n]), ops[n]);
    if k < n {
      SubmittedQuantity(ops[..n], k);
    } else {
      NotSubmitted(ops[..n], id);
    }
    hide E.Run, E.Record;
  }

  lemma {:induction false} NotSubmitted(ops: seq<E.Op>, id: string)
    requires forall k :: 0 <= k < |ops| && ops[k].Submit? ==> ops[k].order.id != id
    ensures E.AccountOf(id, E.Log(ops)).submitted == 0
  {
    if ops != [] {
      var n := |ops| - 1;
      assert E.Log(ops)[..|E.Log(ops)| - 1] == E.Log(ops[..n]);
      NotSubmitted(ops[..n], id);
      RecordSubmits(id, E.Run(ops[..n]), ops[n]);
    }
    hide E.Run, E.Record;
  }

  lemma {:induction false} RecordSubmits(id: string, b: Book, op: E.Op)
    ensures E.Entry(id, E.Record(b, op)).submitted == if op.Submit? && op.order.id == id then op.order.qty else 0
  {
    hide Trades, AfterTrades, FilledQty, Add, WouldMatch, E.GivenBy;
  }

  /** Settled trades never take more from an order than its quantity. */
  lemma {:induction false} SettledWithin(ops: seq<E.Op>, ts: seq<L.Trade>, market: string, done: set<string>, k: nat)
    requires IsLimitRun(ops) && Reports(ts, FillsOf(E.Log(ops)), market) && k < |ops| && ops[k].Submit?
    ensures SettledFor(ts, done, ops[k].order.id) <= ops[k].order.qty
  {
    var id, fs := ops[k].order.id, FillsOf(E.Log(ops));
    forall j | 0 <= j < |fs| ensures fs[j].m.quantity > 0 {
      RunFillsKnown(ops, fs[j]);
    }
    SettledAtMost(ts, fs, market, done, id);
    LogFor(E.Log(ops), id);
    SubmittedQuantity(ops, k);
    E.NeverOverfilled(id, ops);
    hide E.Log, FillsOf, SettledFor, E.AccountOf, FilledFor, Reports;
  }

  // ---- the ledger follows the engine

  /** The row of an order, after the settled trades and possibly a cancellation; before it is created, nothing is settled. */
  ghost predicate Tracks(s: L.State, o: Order, ts: seq<L.Trade>, market: string) {
    var i := L.RowOf(s.rows, o.id);
    && market in s.markets
    && if i == |s.rows| then Untouched(ts, s.trades, o.id)
       else (o.user, L.Pays(s.markets, market, o.side)) in s.balances && RowTracks(s.rows[i], o, ts, market, s.trades)
  }

  ghost predicate RowTracks(r: L.Row, o: Order, ts: seq<L.Trade>, market: string, done: set<string>) {
    && r.user == o.user && r.market == market && r.side == o.side && r.price == Some(o.price)
    && r.remaining == o.qty - SettledFor(ts, done, o.id)
    && (!L.Live(r) ==> forall k :: 0 <= k < |ts| && Amount(ts[k], o.id) != 0 ==> ts[k].id in done)
  }

  ghost predicate Follows(s: L.State, ops: seq<E.Op>, ts: seq<L.Trade>, market: string) {
    forall k :: 0 <= k < |ops| && ops[k].Submit? ==> Tracks(s, ops[k].order, ts, market)
  }

  /** No order of the run has been created yet, and nothing of it is settled. */
  ghost predicate Awaited(s: L.State, ops: seq<E.Op>, ts: seq<L.Trade>, market: string) {
    && market in s.markets
    && (forall k :: 0 <= k < |ts| ==> ts[k].id !in s.trades)
    && forall k :: 0 <= k < |ops| && ops[k].Submit? ==> L.RowOf(s.rows, ops[k].order.id) == |s.rows|
  }

  lemma {:induction false} AwaitedFollows(s: L.State, ops: seq<E.Op>, ts: seq<L.Trade>, market: string)
    requires Awaited(s, ops, ts, market)
    ensures Follows(s, ops, ts, market)
  {
  }

  /** Settling trade k, or any other operation of the ledger. */
  datatype Step = Settle(k: nat) | Other(op: L.Op)

  function LedgerOp(ts: seq<L.Trade>, step: Step): L.Op
    requires step.Settle? ==> step.k < |ts|
  {
    match step
    case Settle(k) => L.OnTrade(ts[k])
    case Other(op) => op
  }

  /** All trades of the order are settled. */
  ghost predicate SettledUp(s: L.State, ts: seq<L.Trade>, id: string) {
    forall k :: 0 <= k < |ts| && Amount(ts[k], id) != 0 ==> ts[k].id in s.trades
  }

  /** The order as the order service creates it. */
  predicate Creates(op: L.Op, o: Order, market: string)
    requires op.Create?
  {
    op.user == o.user && op.market == market && op.side == o.side && op.kind == LimitOrder && op.price == o.price && op.quantity == o.qty
  }

  /** A trade settles after both its orders were created; an order is closed after all its trades have settled; the orders
      of the run are created as they are. */
  ghost predicate Allowed(s: L.State, ops: seq<E.Op>, ts: seq<L.Trade>, market: string, step: Step) {
    match step
    case Settle(k) =>
      k < |ts| && (ts[k].id in s.trades || (L.RowOf(s.rows, ts[k].buyOrder) < |s.rows| && L.RowOf(s.rows, ts[k].sellOrder) < |s.rows|))
    case Other(op) =>
      && !op.OnTrade? && L.Honest(s, op) && (op.CancelOrder? || op.OnRejected? ==> SettledUp(s, ts, op.id))
      && (op.Create? ==> forall k :: 0 <= k < |ops| && ops[k].Submit? && ops[k].order.id == op.id ==> Creates(op, ops[k].order, market))
  }

  lemma {:induction false} OrderOf(ops: seq<E.Op>, id: string, user: string, price: int, side: Side) returns (k: nat)
    requires Submitted(ops, id, user, price, side)
    ensures k < |ops| && IsOrder(ops[k], id, user, price, side)
  {
    k :| 0 <= k < |ops| && IsOrder(ops[k], id, user, price, side);
  }

  /** One side of an unsettled trade finds its order live and with enough left. */
  lemma {:induction false} RowFits(s: L.State, ops: seq<E.Op>, ts: seq<L.Trade>, market: string, k: nat, j: nat, side: Side)
    requires IsLimitRun(ops) && Reports(ts, FillsOf(E.Log(ops)), market) && Follows(s, ops, ts, market)
    requires k < |ts| && ts[k].id !in s.trades && j < |ops| && ops[j].Submit? && ts[k].quantity > 0 && ts[k].market == market
    requires ops[j].order.side == side && ops[j].order.id == (if side == Buy then ts[k].buyOrder else ts[k].sellOrder)
    requires ops[j].order.user == if side == Buy then ts[k].buyer else ts[k].seller
    requires L.RowOf(s.rows, ops[j].order.id) < |s.rows|
    ensures var i := L.RowOf(s.rows, ops[j].order.id);
            i < |s.rows| && L.FitsRow(s.rows[i], ts[k], side) && L.LimitPrice(s.rows[i]) == ops[j].order.price
  {
    var id := ops[j].order.id;
    SettledOneMore(ts, s.trades, k, id);
    SettledWithin(ops, ts, market, s.trades + {ts[k].id}, j);
    assert Amount(ts[k], id) >= ts[k].quantity;
    hide IsLimitRun, FillsOf, SettledFor;
  }

  /** Every unsettled trade of the run fits the ledger. */
  lemma {:induction false} TradeFits(s: L.State, ops: seq<E.Op>, ts: seq<L.Trade>, market: string, k: nat)
    requires IsLimitRun(ops) && Reports(ts, FillsOf(E.Log(ops)), market) && Follows(s, ops, ts, market)
    requires k < |ts| && ts[k].id !in s.trades && L.RowOf(s.rows, ts[k].buyOrder) < |s.rows| && L.RowOf(s.rows, ts[k].sellOrder) < |s.rows|
    ensures L.Fits(s, ts[k])
  {
    var f := FillsOf(E.Log(ops))[k];
    RunFillsKnown(ops, f);
    var taker := OrderOf(ops, f.order.id, f.order.user, f.order.price, f.order.side);
    var maker := OrderOf(ops, f.m.makerOrderId, f.m.makerUserId, f.m.price, Opposite(f.order.side));
    var buy, sell := if f.order.side == Buy then taker else maker, if f.order.side == Buy then maker else taker;
    assert ts[k] == TradeOf(f, market, ts[k].id, ts[k].makerFee, ts[k].takerFee);
    RowFits(s, ops, ts, market, k, buy, Buy);
    RowFits(s, ops, ts, market, k, sell, Sell);
    assert Tracks(s, ops[buy].order, ts, market) && Tracks(s, ops[sell].order, ts, market);
    hide IsLimitRun, FillsOf, Follows, L.FitsRow, RowTracks;
  }

  lemma {:induction false} StepIsHonest(s: L.State, ops: seq<E.Op>, ts: seq<L.Trade>, market: string, step: Step)
    requires IsLimitRun(ops) && Reports(ts, FillsOf(E.Log(ops)), market) && Follows(s, ops, ts, market) && Allowed(s, ops, ts, market, step)
    ensures L.Honest(s, LedgerOp(ts, step))
  {
    if step.Settle? && ts[step.k].id !in s.trades {
      TradeFits(s, ops, ts, market, step.k);
    }
    hide IsLimitRun, FillsOf, Follows, L.Fits, Reports;
  }

  lemma {:induction false} FillFinds(rows: seq<L.Row>, filled: string, quantity: int, id: string)
    ensures var after := L.Fill(rows, filled, quantity); var i := L.RowOf(rows, id);
            && |after| == |rows| && L.RowOf(after, id) == i
            && (i < |rows| ==> after[i] == if id == filled
                                           then rows[i].(filled := rows[i].filled + quantity, remaining := rows[i].remaining - quantity)
                                           else rows[i])
  {
    var j := L.RowOf(rows, filled);
    if j < |rows| {
      L.RowOfAfterUpdate(rows, j, L.Fill(rows, filled, quantity)[j], id);
    }
  }

  lemma {:induction false} SettleTracks(s: L.State, o: Order, ts: seq<L.Trade>, market: string, k: nat)
    requires k < |ts| && ts[k].id !in s.trades && L.Fits(s, ts[k]) && Tracks(s, o, ts, market)
    requires forall i, j :: 0 <= i < j < |ts| ==> ts[i].id != ts[j].id
    ensures Tracks(L.Next(s, L.OnTrade(ts[k])), o, ts, market)
  {
    hide SettledFor, L.Fill, L.RowOf, L.Settled;
    var t := ts[k];
    SettledOneMore(ts, s.trades, k, o.id);
    FillFinds(s.rows, t.buyOrder, t.quantity, o.id);
    FillFinds(L.Fill(s.rows, t.buyOrder, t.quantity), t.sellOrder, t.quantity, o.id);
    L.KeysStay(s, L.OnTrade(t));
  }

  /** The row of an order after another row, or its own, has changed its status. */
  lemma {:induction false} StatusTracks(s: L.State, s': L.State, o: Order, ts: seq<L.Trade>, market: string, i: nat, r: L.Row)
    requires Tracks(s, o, ts, market) && i < |s.rows| && r == s.rows[i].(status := r.status)
    requires s'.rows == s.rows[i := r] && s'.trades == s.trades && s'.markets == s.markets
    requires forall key :: key in s.balances ==> key in s'.balances
    requires r.id == o.id && !L.Live(r) ==> SettledUp(s, ts, o.id)
    ensures Tracks(s', o, ts, market)
  {
    L.RowOfAfterUpdate(s.rows, i, r, o.id);
    hide SettledFor, Amount;
  }

  lemma {:induction false} CreateTracks(s: L.State, op: L.Op, o: Order, ts: seq<L.Trade>, market: string)
    requires op.Create? && L.Refusal(s, op).None? && Tracks(s, o, ts, market) && (op.id == o.id ==> Creates(op, o, market))
    ensures Tracks(L.After(s, op), o, ts, market)
  {
    hide SettledFor, Amount;
    var s' := L.After(s, op);
    L.KeysStay(s, op);
    L.RowOfAppend(s.rows, s'.rows[|s.rows|], o.id);
    if op.id == o.id {
      NothingSettled(ts, s.trades, o.id);
    }
  }

  lemma {:induction false} OtherTracks(s: L.State, op: L.Op, o: Order, ts: seq<L.Trade>, market: string)
    requires Tracks(s, o, ts, market) && !op.OnTrade? && L.Refusal(s, op).None?
    requires op.CancelOrder? || op.OnRejected? ==> SettledUp(s, ts, op.id)
    requires op.Create? && op.id == o.id ==> Creates(op, o, market)
    ensures Tracks(L.After(s, op), o, ts, market)
  {
    hide Tracks, SettledUp;
    var s' := L.After(s, op);
    L.KeysStay(s, op);
    match op
    case Create(_, _, _, _, _, _, _, _) => CreateTracks(s, op, o, ts, market);
    case CancelOrder(_, id) => StatusTracks(s, s', o, ts, market, L.RowOf(s.rows, id), s'.rows[L.RowOf(s.rows, id)]);
    case OnAccepted(id) => StatusTracks(s, s', o, ts, market, L.RowOf(s.rows, id), s'.rows[L.RowOf(s.rows, id)]);
    case OnRejected(id) => StatusTracks(s, s', o, ts, market, L.RowOf(s.rows, id), s'.rows[L.RowOf(s.rows, id)]);
    case Credit(_, _, _) => SameRowsTrack(s, s', o, ts, market);
    case Debit(_, _, _) => SameRowsTrack(s, s', o, ts, market);
  }

  lemma {:induction false} SameRowsTrack(s: L.State, s': L.State, o: Order, ts: seq<L.Trade>, market: string)
    requires Tracks(s, o, ts, market) && s'.rows == s.rows && s'.trades == s.trades && s'.markets == s.markets
    requires forall key :: key in s.balances ==> key in s'.balances
    ensures Tracks(s', o, ts, market)
  {
    hide SettledFor, Amount;
  }

  lemma {:induction false} StepFollows(s: L.State, ops: seq<E.Op>, ts: seq<L.Trade>, market: string, step: Step)
    requires IsLimitRun(ops) && Reports(ts, FillsOf(E.Log(ops)), market) && Follows(s, ops, ts, market) && Allowed(s, ops, ts, market, step)
    ensures Follows(L.Next(s, LedgerOp(ts, step)), ops, ts, market)
  {
    hide IsLimitRun, FillsOf, Tracks, L.Fits, L.After, L.Honest;
    var s' := L.Next(s, LedgerOp(ts, step));
    if step.Settle? && ts[step.k].id !in s.trades {
      TradeFits(s, ops, ts, market, step.k);
    }
    forall k | 0 <= k < |ops| && ops[k].Submit? ensures Tracks(s', ops[k].order, ts, market) {
      match step
      case Settle(n) =>
        if ts[n].id !in s.trades {
          SettleTracks(s, ops[k].order, ts, market, n);
        }
      case Other(op) =>
        if L.Refusal(s, op).None? {
          OtherTracks(s, op, ops[k].order, ts, market);
        }
    }
  }

  ghost function LedgerRun(s: L.State, ts: seq<L.Trade>, steps: seq<Step>): L.State
    requires forall step :: step in steps && step.Settle? ==> step.k < |ts|
  {
    if steps == [] then s
    else L.Next(LedgerRun(s, ts, steps[..|steps| - 1]), LedgerOp(ts, steps[|steps| - 1]))
  }

  ghost predicate AllowedRun(s: L.State, ops: seq<E.Op>, ts: seq<L.Trade>, market: string, steps: seq<Step>) {
    && (forall step :: step in steps && step.Settle? ==> step.k < |ts|)
    && (steps == []
        || (AllowedRun(s, ops, ts, market, steps[..|steps| - 1])
            && Allowed(LedgerRun(s, ts, steps[..|steps| - 1]), ops, ts, market, steps[|steps| - 1])))
  }

  /** Creating the orders of an engine run, settling its trades in any order and any number of times, and whatever else the
      ledger does in between, with an order closed only when its trades are settled, keeps every account covered: no
      balance, available or locked, goes negative, what is locked covers the live orders, and every row is left with its
      quantity less what was settled. */
  lemma {:induction false} EngineRunSettles(s: L.State, ops: seq<E.Op>, ts: seq<L.Trade>, market: string, steps: seq<Step>)
    requires IsLimitRun(ops) && Reports(ts, FillsOf(E.Log(ops)), market) && Awaited(s, ops, ts, market) && L.Sound(s)
    requires AllowedRun(s, ops, ts, market, steps)
    ensures L.Sound(LedgerRun(s, ts, steps)) && Follows(LedgerRun(s, ts, steps), ops, ts, market)
  {
    hide IsLimitRun, FillsOf, Follows, Awaited, L.Sound, L.Next, L.Honest, Reports, Allowed;
    if steps == [] {
      AwaitedFollows(s, ops, ts, market);
    } else {
      var before, step := steps[..|steps| - 1], steps[|steps| - 1];
      EngineRunSettles(s, ops, ts, market, before);
      StepIsHonest(LedgerRun(s, ts, before), ops, ts, market, step);
      StepFollows(LedgerRun(s, ts, before), ops, ts, market, step);
      L.StaysSound(LedgerRun(s, ts, before), LedgerOp(ts, step));
    }
  }
}
