/** Off-chain balances: funds reserved by orders, released by cancellations and spent by trades. */
module Ledger {
  import opened SortedEntries
  import opened ReferenceBook
  import opened EngineModel

  datatype Market = Market(base: string, quote: string)

  datatype Balance = Balance(available: int, locked: int)

  datatype Status = Pending | Open | Cancelled | Refused

  /** An order row; a stop-market order has no price. */
  datatype Row = Row(id: string, user: string, market: string, side: Side, kind: Kind, status: Status,
                     price: Option<int>, quantity: int, filled: int, remaining: int)

  datatype Trade = Trade(id: string, market: string, buyOrder: string, sellOrder: string, buyer: string, seller: string,
                         price: int, quantity: int, makerFee: int, takerFee: int, takerSide: Side)

  type Key = (string, string)

  datatype State = State(markets: map<string, Market>, balances: map<Key, Balance>, rows: seq<Row>, trades: set<string>)

  datatype Error = NotFound | BadRequest | InsufficientBalance | DuplicateId | Thrown

  datatype Op =
    | Create(id: string, user: string, market: string, side: Side, kind: Kind, price: int, stopPrice: int, quantity: int)
    | CancelOrder(user: string, id: string)
    | OnAccepted(id: string)
    | OnRejected(id: string)
    | OnTrade(trade: Trade)
    | Credit(user: string, asset: string, amount: int)
    | Debit(user: string, asset: string, amount: int)

  // ---- rows

  predicate Live(r: Row) { r.status == Pending || r.status == Open }

  function LimitPrice(r: Row): int { if r.price.Some? then r.price.value else 0 }

  /** The asset an order pays with. */
  function Pays(markets: map<string, Market>, market: string, side: Side): string {
    if market !in markets then "" else if side == Buy then markets[market].quote else markets[market].base
  }

  /** What must stay locked for the rest of an order. */
  function Cost(side: Side, price: int, quantity: int): int { if side == Buy then price * quantity else quantity }

  function Need(r: Row): int { if Live(r) then Cost(r.side, LimitPrice(r), r.remaining) else 0 }

  ghost function Part(markets: map<string, Market>, r: Row, key: Key): int {
    if key == (r.user, Pays(markets, r.market, r.side)) then Need(r) else 0
  }

  ghost function NeedOf(markets: map<string, Market>, rows: seq<Row>, key: Key): int {
    if rows == [] then 0 else Part(markets, rows[0], key) + NeedOf(markets, rows[1..], key)
  }

  /** Index of the row with this id, or the number of rows. */
  ghost function RowOf(rows: seq<Row>, id: string): (i: nat)
    ensures i <= |rows| && (i < |rows| ==> rows[i].id == id) && forall j :: 0 <= j < i ==> rows[j].id != id
  {
    if rows == [] || rows[0].id == id then 0 else 1 + RowOf(rows[1..], id)
  }

  ghost function Locked(s: State, key: Key): int { if key in s.balances then s.balances[key].locked else 0 }

  // ---- balances

  function Adjust(bs: map<Key, Balance>, key: Key, available: int, locked: int): map<Key, Balance>
    requires key in bs
  {
    bs[key := Balance(bs[key].available + available, bs[key].locked + locked)]
  }

  function Upsert(bs: map<Key, Balance>, key: Key, amount: int): map<Key, Balance> {
    if key in bs then Adjust(bs, key, amount, 0) else bs[key := Balance(amount, 0)]
  }

  // ---- the operations

  function RowPrice(op: Op): Option<int>
    requires op.Create?
  {
    if op.kind == MarketOrder then Some(0) else if op.kind == StopMarket then None else Some(op.price)
  }

  /** What creating an order sets aside: everything available for a market buy. */
  ghost function Reserve(s: State, op: Op): int
    requires op.Create?
  {
    var key := (op.user, Pays(s.markets, op.market, op.side));
    if op.kind == MarketOrder && op.side == Buy then (if key in s.balances then s.balances[key].available else 0)
    else Cost(op.side, if op.kind == MarketOrder then 0 else if op.kind == StopMarket then op.stopPrice else op.price, op.quantity)
  }

  /** Why giving back the rest of row i fails, if it does. */
  ghost function ReleaseRefusal(s: State, i: nat): Option<Error>
    requires i < |s.rows|
  {
    var r := s.rows[i];
    if (r.side == Buy && r.price == None) || (r.user, Pays(s.markets, r.market, r.side)) !in s.balances then Some(Thrown) else None
  }

  ghost function Refusal(s: State, op: Op): Option<Error> {
    match op
    case Create(id, user, market, side, _, _, _, _) =>
      var key := (user, Pays(s.markets, market, side));
      if market !in s.markets then Some(NotFound)
      else if key !in s.balances || s.balances[key].available < Reserve(s, op) then Some(InsufficientBalance)
      else if RowOf(s.rows, id) < |s.rows| then Some(DuplicateId)
      else None
    case CancelOrder(user, id) =>
      var i := RowOf(s.rows, id);
      if i == |s.rows| || s.rows[i].user != user then Some(NotFound)
      else if !Live(s.rows[i]) then Some(BadRequest)
      else ReleaseRefusal(s, i)
    case OnAccepted(id) => if RowOf(s.rows, id) == |s.rows| then Some(Thrown) else None
    case OnRejected(id) =>
      var i := RowOf(s.rows, id);
      if i == |s.rows| || !Live(s.rows[i]) then Some(NotFound) else ReleaseRefusal(s, i)
    case OnTrade(t) =>
      if t.id in s.trades then Some(DuplicateId) else if t.market !in s.markets then Some(NotFound) else None
    case Credit(_, _, _) => None
    case Debit(user, asset, amount) =>
      if (user, asset) !in s.balances || s.balances[(user, asset)].available < amount then Some(InsufficientBalance) else None
  }

  /** Row i leaves the book with this status and what it still reserved becomes available. */
  function Release(s: State, i: nat, status: Status): State
    requires i < |s.rows| && (s.rows[i].user, Pays(s.markets, s.rows[i].market, s.rows[i].side)) in s.balances
  {
    var r := s.rows[i];
    var amount := Cost(r.side, LimitPrice(r), r.remaining);
    s.(rows := s.rows[i := r.(status := status)],
       balances := Adjust(s.balances, (r.user, Pays(s.markets, r.market, r.side)), amount, -amount))
  }

  ghost function Fill(rows: seq<Row>, id: string, quantity: int): seq<Row> {
    var i := RowOf(rows, id);
    if i == |rows| then rows
    else rows[i := rows[i].(filled := rows[i].filled + quantity, remaining := rows[i].remaining - quantity)]
  }

  function SellerFee(t: Trade): int { if t.takerSide == Sell then t.takerFee else t.makerFee }

  /** Both payers have a balance row to pay from. */
  predicate CanPay(s: State, t: Trade)
    requires t.market in s.markets
  {
    (t.buyer, s.markets[t.market].quote) in s.balances && (t.seller, s.markets[t.market].base) in s.balances
  }

  function Settled(bs: map<Key, Balance>, m: Market, t: Trade): map<Key, Balance>
    requires (t.buyer, m.quote) in bs && (t.seller, m.base) in bs
  {
    var paid := Adjust(bs, (t.buyer, m.quote), 0, -(t.price * t.quantity));
    var got := Upsert(paid, (t.buyer, m.base), t.quantity);
    var given := Adjust(got, (t.seller, m.base), 0, -t.quantity);
    Upsert(given, (t.seller, m.quote), t.price * t.quantity - SellerFee(t))
  }

  ghost function After(s: State, op: Op): State
    requires Refusal(s, op).None?
  {
    match op
    case Create(id, user, market, side, kind, _, _, quantity) =>
      var status := if kind == StopLimit || kind == StopMarket then Open else Pending;
      s.(rows := s.rows + [Row(id, user, market, side, kind, status, RowPrice(op), quantity, 0, quantity)],
         balances := Adjust(s.balances, (user, Pays(s.markets, market, side)), -Reserve(s, op), Reserve(s, op)))
    case CancelOrder(_, id) => Release(s, RowOf(s.rows, id), Cancelled)
    case OnAccepted(id) => var i := RowOf(s.rows, id); s.(rows := s.rows[i := s.rows[i].(status := Open)])
    case OnRejected(id) => Release(s, RowOf(s.rows, id), Refused)
    case OnTrade(t) =>
      var noted := s.(trades := s.trades + {t.id});
      if !CanPay(s, t) then noted
      else noted.(balances := Settled(s.balances, s.markets[t.market], t),
                  rows := Fill(Fill(s.rows, t.buyOrder, t.quantity), t.sellOrder, t.quantity))
    case Credit(user, asset, amount) => s.(balances := Upsert(s.balances, (user, asset), amount))
    case Debit(user, asset, amount) => s.(balances := Adjust(s.balances, (user, asset), -amount, 0))
  }

  ghost function Next(s: State, op: Op): State {
    if Refusal(s, op).None? then After(s, op) else s
  }

  // ---- what the other services are trusted with

  /** The trade is between two live orders of the parties, within what both still want and the buyer's limit. */
  ghost predicate Fits(s: State, t: Trade) {
    var i, j := RowOf(s.rows, t.buyOrder), RowOf(s.rows, t.sellOrder);
    && t.market in s.markets && i < |s.rows| && j < |s.rows| && CanPay(s, t)
    && FitsRow(s.rows[i], t, Buy) && FitsRow(s.rows[j], t, Sell) && t.price <= LimitPrice(s.rows[i])
    && SellerFee(t) <= t.price * t.quantity
  }

  ghost predicate FitsRow(r: Row, t: Trade, side: Side) {
    Live(r) && Belongs(r, t, side) && 0 < t.quantity <= r.remaining
  }

  /** The row is the order one of the parties traded with. */
  ghost predicate Belongs(r: Row, t: Trade, side: Side) {
    r.market == t.market && r.side == side && r.user == if side == Buy then t.buyer else t.seller
  }

  /** The trade is between orders of its parties, live or not. */
  ghost predicate Between(s: State, t: Trade) {
    var i, j := RowOf(s.rows, t.buyOrder), RowOf(s.rows, t.sellOrder);
    && t.market in s.markets && i < |s.rows| && j < |s.rows| && CanPay(s, t)
    && Belongs(s.rows[i], t, Buy) && Belongs(s.rows[j], t, Sell)
  }

  /** Inputs are validated; a trade, unless repeated, fits; an order is not accepted after it was cancelled. */
  ghost predicate Honest(s: State, op: Op) {
    match op
    case Create(_, _, _, _, _, price, stopPrice, quantity) => price >= 0 && stopPrice >= 0 && quantity > 0
    case OnAccepted(id) => var i := RowOf(s.rows, id); i < |s.rows| ==> Live(s.rows[i])
    case OnTrade(t) => t.id in s.trades || Fits(s, t)
    case Credit(_, _, amount) => amount >= 0
    case Debit(_, _, amount) => amount >= 0
    case _ => true
  }

  ghost predicate RowOk(s: State, r: Row) {
    && r.remaining >= 0 && r.filled >= 0 && r.filled + r.remaining == r.quantity && LimitPrice(r) >= 0
    && (r.user, Pays(s.markets, r.market, r.side)) in s.balances
  }

  ghost predicate RowsOk(s: State) {
    forall i :: 0 <= i < |s.rows| ==> RowOk(s, s.rows[i])
  }

  /** What is locked beyond the needs of the live orders. */
  ghost function Slack(s: State, key: Key): int { Locked(s, key) - NeedOf(s.markets, s.rows, key) }

  /** How one operation changes the slack: what a stop or market buy sets aside without naming a price in its row, and
      what a buyer saves by trading below the limit. */
  ghost function Gain(s: State, op: Op, key: Key): int {
    if Refusal(s, op).Some? then 0
    else match op
      case Create(_, user, market, side, kind, _, _, _) =>
        if key == (user, Pays(s.markets, market, Buy)) && side == Buy && kind in {MarketOrder, StopMarket} then Reserve(s, op) else 0
      case OnTrade(t) =>
        var i := RowOf(s.rows, t.buyOrder);
        if i < |s.rows| && key == (t.buyer, Pays(s.markets, t.market, Buy)) then (LimitPrice(s.rows[i]) - t.price) * t.quantity
        else 0
      case _ => 0
  }

  // ---- sums

  lemma {:induction false} NeedUpdate(markets: map<string, Market>, rows: seq<Row>, i: nat, r: Row, key: Key)
    requires i < |rows|
    ensures NeedOf(markets, rows[i := r], key) == NeedOf(markets, rows, key) - Part(markets, rows[i], key) + Part(markets, r, key)
  {
    var u := rows[i := r];
    if i == 0 {
      assert u[1..] == rows[1..];
    } else {
      assert u[1..] == rows[1..][i - 1 := r];
      NeedUpdate(markets, rows[1..], i - 1, r, key);
    }
    hide Part;
  }

  lemma {:induction false} NeedAppend(markets: map<string, Market>, rows: seq<Row>, r: Row, key: Key)
    ensures NeedOf(markets, rows + [r], key) == NeedOf(markets, rows, key) + Part(markets, r, key)
  {
    if rows == [] {
      assert rows + [r] == [r];
    } else {
      assert (rows + [r])[1..] == rows[1..] + [r];
      NeedAppend(markets, rows[1..], r, key);
    }
    hide Part;
  }

  lemma {:induction false} NeedNonNegative(s: State, rows: seq<Row>, key: Key)
    requires forall i :: 0 <= i < |rows| ==> RowOk(s, rows[i])
    ensures NeedOf(s.markets, rows, key) >= 0
  {
    if rows != [] {
      NeedNonNegative(s, rows[1..], key);
      CostNonNegative(rows[0].side, LimitPrice(rows[0]), rows[0].remaining);
    }
    hide Cost;
  }

  lemma {:induction false} CostNonNegative(side: Side, price: int, quantity: int)
    requires price >= 0 && quantity >= 0
    ensures Cost(side, price, quantity) >= 0
  {
  }

  // ---- each operation and the slack

  lemma {:induction false} CreateSlack(s: State, op: Op, key: Key)
    requires op.Create? && Refusal(s, op).None? && Honest(s, op)
    ensures Slack(After(s, op), key) == Slack(s, key) + Gain(s, op, key)
  {
    var s' := After(s, op);
    NeedAppend(s.markets, s.rows, s'.rows[|s.rows|], key);
    hide NeedOf, RowOf;
  }

  lemma {:induction false} ReleaseSlack(s: State, i: nat, status: Status, key: Key)
    requires i < |s.rows| && Live(s.rows[i]) && (status == Cancelled || status == Refused)
    requires (s.rows[i].user, Pays(s.markets, s.rows[i].market, s.rows[i].side)) in s.balances
    ensures Slack(Release(s, i, status), key) == Slack(s, key)
  {
    NeedUpdate(s.markets, s.rows, i, s.rows[i].(status := status), key);
    hide NeedOf, Cost;
  }

  lemma {:induction false} AcceptSlack(s: State, op: Op, key: Key)
    requires op.OnAccepted? && Refusal(s, op).None? && Honest(s, op)
    ensures Slack(After(s, op), key) == Slack(s, key)
  {
    var i := RowOf(s.rows, op.id);
    NeedUpdate(s.markets, s.rows, i, s.rows[i].(status := Open), key);
    hide NeedOf, Cost;
  }

  lemma {:induction false} RowOfAfterUpdate(rows: seq<Row>, i: nat, r: Row, id: string)
    requires i < |rows| && r.id == rows[i].id
    ensures RowOf(rows[i := r], id) == RowOf(rows, id)
  {
    var u := rows[i := r];
    if i == 0 {
      assert u[1..] == rows[1..];
    } else {
      assert u[1..] == rows[1..][i - 1 := r];
      RowOfAfterUpdate(rows[1..], i - 1, r, id);
    }
  }

  /** What the row needs is less by what was filled of it, if it is live; a dead row needs nothing before and after. */
  lemma {:induction false} FillPart(markets: map<string, Market>, r: Row, t: Trade, side: Side, key: Key)
    requires Belongs(r, t, side)
    ensures var f := r.(filled := r.filled + t.quantity, remaining := r.remaining - t.quantity);
            Part(markets, f, key) == Part(markets, r, key)
              - if Live(r) && key == (r.user, Pays(markets, r.market, r.side)) then Cost(side, LimitPrice(r), t.quantity) else 0
  {
    CostSplits(r.side, LimitPrice(r), r.remaining, t.quantity);
    hide Cost, Pays;
  }

  lemma {:induction false} CostSplits(side: Side, price: int, whole: int, part: int)
    ensures Cost(side, price, whole - part) == Cost(side, price, whole) - Cost(side, price, part)
  {
    assert price * (whole - part) == price * whole - price * part;
  }

  lemma {:induction false} SettledLocked(s: State, t: Trade, key: Key)
    requires t.market in s.markets && CanPay(s, t)
    ensures var m := s.markets[t.market];
            Locked(s.(balances := Settled(s.balances, m, t)), key) == Locked(s, key)
              - (if key == (t.buyer, m.quote) then t.price * t.quantity else 0)
              - (if key == (t.seller, m.base) then t.quantity else 0)
  {
  }

  /** A trade frees what its live orders needed for it. */
  lemma {:induction false} FillsNeed(s: State, t: Trade, key: Key)
    requires Between(s, t)
    ensures var b, q := s.rows[RowOf(s.rows, t.buyOrder)], s.rows[RowOf(s.rows, t.sellOrder)]; var m := s.markets[t.market];
            NeedOf(s.markets, Fill(Fill(s.rows, t.buyOrder, t.quantity), t.sellOrder, t.quantity), key)
              == NeedOf(s.markets, s.rows, key)
                - (if Live(b) && key == (t.buyer, m.quote) then Cost(Buy, LimitPrice(b), t.quantity) else 0)
                - (if Live(q) && key == (t.seller, m.base) then t.quantity else 0)
  {
    hide NeedOf, RowOf, Part, Cost;
    var i, j := RowOf(s.rows, t.buyOrder), RowOf(s.rows, t.sellOrder);
    var b, q := s.rows[i], s.rows[j];
    var b' := b.(filled := b.filled + t.quantity, remaining := b.remaining - t.quantity);
    var q' := q.(filled := q.filled + t.quantity, remaining := q.remaining - t.quantity);
    RowOfAfterUpdate(s.rows, i, b', t.sellOrder);
    assert s.rows[i := b'][j] == q;
    NeedUpdate(s.markets, s.rows, i, b', key);
    NeedUpdate(s.markets, s.rows[i := b'], j, q', key);
    FillPart(s.markets, b, t, Buy, key);
    FillPart(s.markets, q, t, Sell, key);
    SellCost(LimitPrice(q), t.quantity);
  }

  lemma {:induction false} SellCost(price: int, quantity: int)
    ensures Cost(Sell, price, quantity) == quantity
  {
  }

  /** What settling takes from the slack beyond the declared gain: what a dead order no longer had set aside. */
  ghost function Loss(s: State, t: Trade, key: Key): int
    requires Between(s, t)
  {
    var b, q := s.rows[RowOf(s.rows, t.buyOrder)], s.rows[RowOf(s.rows, t.sellOrder)]; var m := s.markets[t.market];
    (if !Live(b) && key == (t.buyer, m.quote) then Cost(Buy, LimitPrice(b), t.quantity) else 0)
    + (if !Live(q) && key == (t.seller, m.base) then t.quantity else 0)
  }

  lemma {:induction false} SettleSlack(s: State, t: Trade, key: Key)
    requires Between(s, t) && t.id !in s.trades
    ensures Slack(After(s, OnTrade(t)), key) == Slack(s, key) + Gain(s, OnTrade(t), key) - Loss(s, t, key)
  {
    hide NeedOf, RowOf, Settled, Fill, Belongs, LimitPrice, Cost;
    var p, q := LimitPrice(s.rows[RowOf(s.rows, t.buyOrder)]), t.quantity;
    SettledLocked(s, t, key);
    FillsNeed(s, t, key);
    Saved(p, t.price, q);
  }

  lemma {:induction false} Saved(limit: int, price: int, quantity: int)
    ensures (limit - price) * quantity == Cost(Buy, limit, quantity) - price * quantity
  {
  }

  lemma {:induction false} TradeSlack(s: State, t: Trade, key: Key)
    requires Fits(s, t) && t.id !in s.trades
    ensures Slack(After(s, OnTrade(t)), key) == Slack(s, key) + Gain(s, OnTrade(t), key)
  {
    SettleSlack(s, t, key);
    hide Slack, Gain, Cost, CanPay;
  }

  /** The slack of every user and asset changes by the declared gain and by nothing else. */
  lemma {:induction false} SlackIsGained(s: State, op: Op, key: Key)
    requires Honest(s, op)
    ensures Slack(Next(s, op), key) == Slack(s, key) + Gain(s, op, key)
  {
    if Refusal(s, op).None? {
      match op
      case Create(_, _, _, _, _, _, _, _) => CreateSlack(s, op, key);
      case CancelOrder(_, id) => ReleaseSlack(s, RowOf(s.rows, id), Cancelled, key);
      case OnAccepted(_) => AcceptSlack(s, op, key);
      case OnRejected(id) => ReleaseSlack(s, RowOf(s.rows, id), Refused, key);
      case OnTrade(t) => TradeSlack(s, t, key);
      case Credit(_, _, _) =>
      case Debit(_, _, _) =>
    }
    hide NeedOf, RowOf, Fits, Release, Settled;
  }

  // ---- what each operation does, account by account

  ghost function Available(s: State, key: Key): int { if key in s.balances then s.balances[key].available else 0 }

  /** What an order sets aside: its price times its quantity of the quote asset for a buy, its quantity of the base asset for a
      sell; a stop-market order is priced at its stop, and a market buy takes all there is. Nobody else's funds change, and
      the order is filed as it came. */
  lemma {:induction false} CreateReserves(s: State, op: Op, key: Key)
    requires op.Create? && Refusal(s, op).None?
    ensures op.market in s.markets
    ensures var m := s.markets[op.market];
            var paid := (op.user, if op.side == Buy then m.quote else m.base);
            var amount := if op.side == Sell then op.quantity
                          else if op.kind == MarketOrder then Available(s, paid)
                          else if op.kind == StopMarket then op.stopPrice * op.quantity
                          else op.price * op.quantity;
            && Available(After(s, op), key) == Available(s, key) - (if key == paid then amount else 0)
            && Locked(After(s, op), key) == Locked(s, key) + if key == paid then amount else 0
    ensures After(s, op).rows
            == s.rows + [Row(op.id, op.user, op.market, op.side, op.kind, if op.kind in {StopLimit, StopMarket} then Open else Pending,
                             if op.kind == StopMarket then None else Some(if op.kind == MarketOrder then 0 else op.price),
                             op.quantity, 0, op.quantity)]
  {
    hide RowOf;
  }

  /** What a cancellation or a refusal frees: the price times what remains for a buy, what remains for a sell. The order is
      marked, and no other changes. */
  lemma {:induction false} ReleaseFrees(s: State, op: Op, key: Key)
    requires (op.CancelOrder? || op.OnRejected?) && Refusal(s, op).None?
    ensures RowOf(s.rows, op.id) < |s.rows|
    ensures var i := RowOf(s.rows, op.id); var r := s.rows[i];
            var paid := (r.user, Pays(s.markets, r.market, r.side));
            var amount := if r.side == Sell then r.remaining else (if r.price.Some? then r.price.value else 0) * r.remaining;
            && Live(r) && (op.CancelOrder? ==> r.user == op.user)
            && Available(After(s, op), key) == Available(s, key) + (if key == paid then amount else 0)
            && Locked(After(s, op), key) == Locked(s, key) - (if key == paid then amount else 0)
            && After(s, op).rows == s.rows[i := r.(status := if op.CancelOrder? then Cancelled else Refused)]
  {
    hide RowOf;
  }

  /** An order is filed exactly if its market is known, its id is new, and what it has to set aside is available. */
  lemma {:induction false} CreateIff(s: State, op: Op)
    requires op.Create?
    ensures Refusal(s, op).None?
       <==> && op.market in s.markets && (forall r :: r in s.rows ==> r.id != op.id)
            && var paid := (op.user, if op.side == Buy then s.markets[op.market].quote else s.markets[op.market].base);
               && paid in s.balances
               && (op.side == Sell ==> s.balances[paid].available >= op.quantity)
               && (op.side == Buy && op.kind == StopMarket ==> s.balances[paid].available >= op.stopPrice * op.quantity)
               && (op.side == Buy && op.kind in {LimitOrder, StopLimit} ==> s.balances[paid].available >= op.price * op.quantity)
  {
    var i := RowOf(s.rows, op.id);
    assert i < |s.rows| ==> s.rows[i] in s.rows;
    hide RowOf;
  }

  /** A cancellation is accepted exactly from the owner of a pending or open order, a rejection exactly for such an order; both
      fail for a buy without a price or an owner without a balance row. */
  lemma {:induction false} ReleaseIff(s: State, op: Op)
    requires op.CancelOrder? || op.OnRejected?
    ensures Refusal(s, op).None?
       <==> && RowOf(s.rows, op.id) < |s.rows|
            && var r := s.rows[RowOf(s.rows, op.id)];
               && (op.CancelOrder? ==> r.user == op.user) && (r.status == Pending || r.status == Open) && (r.side == Sell || r.price.Some?)
               && (r.user, Pays(s.markets, r.market, r.side)) in s.balances
  {
    hide RowOf;
  }

  /** A buyer pays in the market's quote asset and a seller in its base asset. */
  lemma {:induction false} PaysIn(markets: map<string, Market>, market: string)
    requires market in markets
    ensures Pays(markets, market, Buy) == markets[market].quote && Pays(markets, market, Sell) == markets[market].base
  {
  }

  lemma {:induction false} AcceptOpens(s: State, op: Op)
    requires op.OnAccepted? && Refusal(s, op).None?
    ensures RowOf(s.rows, op.id) < |s.rows| && After(s, op).balances == s.balances
    ensures var i := RowOf(s.rows, op.id); After(s, op).rows == s.rows[i := s.rows[i].(status := Open)]
  {
    hide RowOf;
  }

  /** What a settled trade moves: the buyer pays price times quantity out of what is locked and can dispose of the bought
      quantity; the seller gives the quantity out of what is locked and can dispose of price times quantity less a fee, that of
      the taker for a seller who took and that of the maker otherwise. Nobody else's funds change. */
  ghost predicate Paid(bs: map<Key, Balance>, bs': map<Key, Balance>, m: Market, t: Trade, key: Key) {
    var was := if key in bs then bs[key] else Balance(0, 0);
    var now := if key in bs' then bs'[key] else Balance(0, 0);
    var cost := t.price * t.quantity;
    var fee := if t.takerSide == Sell then t.takerFee else t.makerFee;
    && now.available == was.available + (if key == (t.buyer, m.base) then t.quantity else 0)
                        + (if key == (t.seller, m.quote) then cost - fee else 0)
    && now.locked == was.locked - (if key == (t.buyer, m.quote) then cost else 0) - (if key == (t.seller, m.base) then t.quantity else 0)
  }

  lemma {:induction false} SettledPays(bs: map<Key, Balance>, m: Market, t: Trade, key: Key)
    requires (t.buyer, m.quote) in bs && (t.seller, m.base) in bs
    ensures Paid(bs, Settled(bs, m, t), m, t, key)
  {
  }

  lemma {:induction false} PaidMeans(s: State, s': State, m: Market, t: Trade, key: Key)
    requires t.market in s.markets && CanPay(s, t) && m == s.markets[t.market] && s'.balances == Settled(s.balances, m, t)
    ensures var cost, fee := t.price * t.quantity, if t.takerSide == Sell then t.takerFee else t.makerFee;
            && Available(s', key) == Available(s, key) + (if key == (t.buyer, m.base) then t.quantity else 0)
                                     + (if key == (t.seller, m.quote) then cost - fee else 0)
            && Locked(s', key) == Locked(s, key) - (if key == (t.buyer, m.quote) then cost else 0)
                                  - (if key == (t.seller, m.base) then t.quantity else 0)
  {
    SettledPays(s.balances, m, t, key);
    hide Settled;
  }

  /** Between two parties, of two different assets: what each of the four accounts gains and loses. */
  lemma {:induction false} TradePays(s: State, t: Trade)
    requires t.id !in s.trades && t.market in s.markets && CanPay(s, t)
    requires t.buyer != t.seller && s.markets[t.market].base != s.markets[t.market].quote
    ensures var s', m := After(s, OnTrade(t)), s.markets[t.market];
            var buys, pays, gives, gets := (t.buyer, m.base), (t.buyer, m.quote), (t.seller, m.base), (t.seller, m.quote);
            && Available(s', buys) == Available(s, buys) + t.quantity && Locked(s', buys) == Locked(s, buys)
            && Available(s', pays) == Available(s, pays) && Locked(s', pays) == Locked(s, pays) - t.price * t.quantity
            && Available(s', gives) == Available(s, gives) && Locked(s', gives) == Locked(s, gives) - t.quantity
            && Available(s', gets) == Available(s, gets) + t.price * t.quantity - (if t.takerSide == Sell then t.takerFee else t.makerFee)
            && Locked(s', gets) == Locked(s, gets)
            && forall key :: key !in {buys, pays, gives, gets} ==> Available(s', key) == Available(s, key) && Locked(s', key) == Locked(s, key)
  {
    hide RowOf, Fill, Settled, Paid;
    var s', m := After(s, OnTrade(t)), s.markets[t.market];
    PaidMeans(s, s', m, t, (t.buyer, m.base));
    PaidMeans(s, s', m, t, (t.buyer, m.quote));
    PaidMeans(s, s', m, t, (t.seller, m.base));
    PaidMeans(s, s', m, t, (t.seller, m.quote));
    forall key | key !in {(t.buyer, m.base), (t.buyer, m.quote), (t.seller, m.base), (t.seller, m.quote)}
      ensures Available(s', key) == Available(s, key) && Locked(s', key) == Locked(s, key) {
      PaidMeans(s, s', m, t, key);
    }
  }

  /** And both orders are filled by it. */
  lemma {:induction false} TradeFills(s: State, t: Trade, i: nat, j: nat)
    requires t.id !in s.trades && t.market in s.markets && CanPay(s, t) && i < |s.rows| && j < |s.rows| && i != j
    requires i == RowOf(s.rows, t.buyOrder) && j == RowOf(s.rows, t.sellOrder)
    ensures var rows := After(s, OnTrade(t)).rows; var b, q := s.rows[i], s.rows[j];
            rows == s.rows[i := b.(filled := b.filled + t.quantity, remaining := b.remaining - t.quantity)]
                          [j := q.(filled := q.filled + t.quantity, remaining := q.remaining - t.quantity)]
  {
    hide RowOf, Settled;
    var b := s.rows[i];
    RowOfAfterUpdate(s.rows, i, b.(filled := b.filled + t.quantity, remaining := b.remaining - t.quantity), t.sellOrder);
  }

  lemma {:induction false} CreditAndDebit(s: State, user: string, asset: string, amount: int, key: Key)
    ensures var s' := Next(s, Credit(user, asset, amount));
            && Available(s', key) == Available(s, key) + (if key == (user, asset) then amount else 0)
            && Locked(s', key) == Locked(s, key) && s'.rows == s.rows
    ensures var s', enough := Next(s, Debit(user, asset, amount)), (user, asset) in s.balances && Available(s, (user, asset)) >= amount;
            && (Refusal(s, Debit(user, asset, amount)).None? <==> enough)
            && Available(s', key) == Available(s, key) - (if enough && key == (user, asset) then amount else 0)
            && Locked(s', key) == Locked(s, key) && s'.rows == s.rows
  {
    hide RowOf;
  }

  /** What comes into an account, or leaves it, with one operation: orders only move funds between the two parts of it. */
  ghost function Flow(s: State, op: Op, key: Key): int {
    if Refusal(s, op).Some? then 0
    else match op
      case Credit(user, asset, amount) => if key == (user, asset) then amount else 0
      case Debit(user, asset, amount) => if key == (user, asset) then -amount else 0
      case OnTrade(t) =>
        var m := s.markets[t.market];
        if !CanPay(s, t) then 0
        else (if key == (t.buyer, m.base) then t.quantity else 0) - (if key == (t.buyer, m.quote) then t.price * t.quantity else 0)
             - (if key == (t.seller, m.base) then t.quantity else 0)
             + (if key == (t.seller, m.quote) then t.price * t.quantity - SellerFee(t) else 0)
      case _ => 0
  }

  lemma {:induction false} SameFunds(s: State, s': State, key: Key)
    requires s'.balances == s.balances
    ensures Available(s', key) == Available(s, key) && Locked(s', key) == Locked(s, key)
  {
  }

  lemma {:induction false} FlowIsAll(s: State, op: Op, key: Key)
    ensures var s' := Next(s, op);
            Available(s', key) + Locked(s', key) == Available(s, key) + Locked(s, key) + Flow(s, op, key)
  {
    hide RowOf, Release, Settled, Fill, Reserve, Available, Locked;
    if Refusal(s, op).None? {
      match op
      case Create(_, _, _, _, _, _, _, _) => CreateReserves(s, op, key);
      case CancelOrder(_, _) => ReleaseFrees(s, op, key);
      case OnRejected(_) => ReleaseFrees(s, op, key);
      case OnAccepted(_) =>
        AcceptOpens(s, op);
        SameFunds(s, After(s, op), key);
      case OnTrade(t) =>
        if CanPay(s, t) {
          PaidMeans(s, After(s, op), s.markets[t.market], t, key);
        } else {
          SameFunds(s, After(s, op), key);
        }
      case Credit(user, asset, amount) => CreditAndDebit(s, user, asset, amount, key);
      case Debit(user, asset, amount) => CreditAndDebit(s, user, asset, amount, key);
    }
  }

  // ---- what every operation keeps

  ghost predicate NonNegative(s: State) {
    forall key :: key in s.balances ==> s.balances[key].available >= 0
  }

  ghost predicate Covered(s: State) {
    forall key :: Slack(s, key) >= 0
  }

  ghost predicate Sound(s: State) {
    RowsOk(s) && NonNegative(s) && Covered(s)
  }

  lemma {:induction false} KeysStay(s: State, op: Op)
    requires Refusal(s, op).None?
    ensures After(s, op).markets == s.markets && forall key :: key in s.balances ==> key in After(s, op).balances
  {
    hide RowOf, Cost;
  }

  lemma {:induction false} FilledRowsOk(s: State, t: Trade, balances: map<Key, Balance>, trades: set<string>)
    requires RowsOk(s) && Fits(s, t) && forall key :: key in s.balances ==> key in balances
    ensures RowsOk(State(s.markets, balances, Fill(Fill(s.rows, t.buyOrder, t.quantity), t.sellOrder, t.quantity), trades))
  {
    var i, j := RowOf(s.rows, t.buyOrder), RowOf(s.rows, t.sellOrder);
    RowOfAfterUpdate(s.rows, i, Fill(s.rows, t.buyOrder, t.quantity)[i], t.sellOrder);
    hide RowOf, Cost;
  }

  lemma {:induction false} ReleasedRowsOk(s: State, i: nat, status: Status)
    requires RowsOk(s) && i < |s.rows| && (s.rows[i].user, Pays(s.markets, s.rows[i].market, s.rows[i].side)) in s.balances
    ensures RowsOk(Release(s, i, status))
  {
    hide Cost;
  }

  lemma {:induction false} RowsStayOk(s: State, op: Op)
    requires RowsOk(s) && Honest(s, op) && Refusal(s, op).None?
    ensures RowsOk(After(s, op))
  {
    hide RowOf, Cost, Settled, Fill, Release, Fits;
    KeysStay(s, op);
    match op
    case OnTrade(t) => FilledRowsOk(s, t, After(s, op).balances, After(s, op).trades);
    case CancelOrder(_, id) => ReleasedRowsOk(s, RowOf(s.rows, id), Cancelled);
    case OnRejected(id) => ReleasedRowsOk(s, RowOf(s.rows, id), Refused);
    case _ =>
  }

  lemma {:induction false} SettledNonNegative(s: State, t: Trade, rows: seq<Row>, trades: set<string>)
    requires NonNegative(s) && Fits(s, t)
    ensures NonNegative(State(s.markets, Settled(s.balances, s.markets[t.market], t), rows, trades))
  {
    hide RowOf, Cost;
  }

  lemma {:induction false} ReleasedNonNegative(s: State, i: nat, status: Status)
    requires RowsOk(s) && NonNegative(s) && i < |s.rows|
    requires (s.rows[i].user, Pays(s.markets, s.rows[i].market, s.rows[i].side)) in s.balances
    ensures NonNegative(Release(s, i, status))
  {
    var r := s.rows[i];
    CostNonNegative(r.side, LimitPrice(r), r.remaining);
    hide Cost;
  }

  lemma {:induction false} StaysNonNegative(s: State, op: Op)
    requires RowsOk(s) && NonNegative(s) && Honest(s, op) && Refusal(s, op).None?
    ensures NonNegative(After(s, op))
  {
    hide RowOf, Cost, Settled, Release, Fits, RowsOk;
    match op
    case OnTrade(t) => SettledNonNegative(s, t, After(s, op).rows, After(s, op).trades);
    case CancelOrder(_, id) => ReleasedNonNegative(s, RowOf(s.rows, id), Cancelled);
    case OnRejected(id) => ReleasedNonNegative(s, RowOf(s.rows, id), Refused);
    case _ =>
  }

  lemma {:induction false} GainNonNegative(s: State, op: Op, key: Key)
    requires NonNegative(s) && Honest(s, op)
    ensures Gain(s, op, key) >= 0
  {
    if op.Create? {
      CostNonNegative(op.side, op.stopPrice, op.quantity);
    }
    hide Cost, RowOf;
  }

  lemma {:induction false} StaysSound(s: State, op: Op)
    requires Sound(s) && Honest(s, op)
    ensures Sound(Next(s, op))
  {
    forall key ensures Slack(Next(s, op), key) >= 0 {
      SlackIsGained(s, op, key);
      GainNonNegative(s, op, key);
    }
    if Refusal(s, op).None? {
      RowsStayOk(s, op);
      StaysNonNegative(s, op);
    }
    hide Slack, Refusal, After, RowsOk, NonNegative;
  }

  // ---- runs

  ghost function Run(s: State, ops: seq<Op>): State {
    if ops == [] then s else Next(Run(s, ops[..|ops| - 1]), ops[|ops| - 1])
  }

  ghost predicate HonestRun(s: State, ops: seq<Op>) {
    ops == [] || (HonestRun(s, ops[..|ops| - 1]) && Honest(Run(s, ops[..|ops| - 1]), ops[|ops| - 1]))
  }

  ghost function Flows(s: State, ops: seq<Op>, key: Key): int {
    if ops == [] then 0 else Flows(s, ops[..|ops| - 1], key) + Flow(Run(s, ops[..|ops| - 1]), ops[|ops| - 1], key)
  }

  /** Over every run, for every user and asset: what is available and locked together is what was there, with all that came in
      and without all that left. */
  lemma {:induction false} FundsAreExact(s: State, ops: seq<Op>, key: Key)
    ensures var s' := Run(s, ops); Available(s', key) + Locked(s', key) == Available(s, key) + Locked(s, key) + Flows(s, ops, key)
  {
    if ops != [] {
      FundsAreExact(s, ops[..|ops| - 1], key);
      FlowIsAll(Run(s, ops[..|ops| - 1]), ops[|ops| - 1], key);
    }
    hide Next, Flow, Available, Locked;
  }

  ghost function Gained(s: State, ops: seq<Op>, key: Key): int {
    if ops == [] then 0 else Gained(s, ops[..|ops| - 1], key) + Gain(Run(s, ops[..|ops| - 1]), ops[|ops| - 1], key)
  }

  /** Before the first order nothing is locked. */
  ghost predicate Fresh(s: State) {
    s.rows == [] && forall key :: key in s.balances ==> s.balances[key].available >= 0 && s.balances[key].locked == 0
  }

  /** Over every run, for every user and asset: locked = needs of the live orders + what was gained, exactly. */
  lemma {:induction false} LockedIsExact(s: State, ops: seq<Op>, key: Key)
    requires Fresh(s) && HonestRun(s, ops)
    ensures var s' := Run(s, ops); Locked(s', key) == NeedOf(s'.markets, s'.rows, key) + Gained(s, ops, key)
  {
    if ops != [] {
      LockedIsExact(s, ops[..|ops| - 1], key);
      SlackIsGained(Run(s, ops[..|ops| - 1]), ops[|ops| - 1], key);
    }
    hide Next, NeedOf, Locked, Gain, Honest;
  }

  lemma {:induction false} RunIsSound(s: State, ops: seq<Op>)
    requires Fresh(s) && HonestRun(s, ops)
    ensures Sound(Run(s, ops))
  {
    if ops != [] {
      RunIsSound(s, ops[..|ops| - 1]);
      StaysSound(Run(s, ops[..|ops| - 1]), ops[|ops| - 1]);
    }
    hide Next, Honest;
  }

  /** Over every run the live orders stay covered and no balance, available or locked, is ever negative. */
  lemma {:induction false} RunIsCovered(s: State, ops: seq<Op>, key: Key)
    requires Fresh(s) && HonestRun(s, ops)
    ensures var s' := Run(s, ops);
            && Locked(s', key) >= NeedOf(s'.markets, s'.rows, key) >= 0
            && (key in s'.balances ==> s'.balances[key].available >= 0 && s'.balances[key].locked >= 0)
  {
    RunIsSound(s, ops);
    var s' := Run(s, ops);
    assert Slack(s', key) >= 0;
    NeedNonNegative(s', s'.rows, key);
    hide Run, NeedOf, HonestRun;
  }

  // ---- repeated trade events

  lemma {:induction false} TradesOnlyGrow(s: State, ops: seq<Op>, n: nat)
    requires n <= |ops|
    ensures Run(s, ops[..n]).trades <= Run(s, ops).trades && Run(s, ops).markets == s.markets
    decreases |ops|
  {
    if n < |ops| {
      assert ops[..|ops| - 1][..n] == ops[..n];
      TradesOnlyGrow(s, ops[..|ops| - 1], n);
      KeepsTrades(Run(s, ops[..|ops| - 1]), ops[|ops| - 1]);
    } else {
      assert ops[..n] == ops;
      if n > 0 {
        TradesOnlyGrow(s, ops[..n - 1], n - 1);
        KeepsTrades(Run(s, ops[..n - 1]), ops[n - 1]);
      }
    }
    hide Next;
  }

  lemma {:induction false} KeepsTrades(s: State, op: Op)
    ensures s.trades <= Next(s, op).trades && Next(s, op).markets == s.markets
    ensures op.OnTrade? && op.trade.market in s.markets ==> op.trade.id in Next(s, op).trades
  {
    hide RowOf, Cost;
  }

  lemma {:induction false} RunConcat(s: State, a: seq<Op>, b: seq<Op>)
    ensures Run(s, a + b) == Run(Run(s, a), b)
  {
    if b == [] {
      assert a + b == a;
    } else {
      assert (a + b)[..|a + b| - 1] == a + b[..|b| - 1];
      RunConcat(s, a, b[..|b| - 1]);
    }
    hide Next;
  }

  /** A trade event delivered again, at any later time, changes nothing. */
  lemma {:induction false} RepeatedTradeIsIgnored(s: State, before: seq<Op>, between: seq<Op>, after: seq<Op>, t: Trade)
    ensures Run(s, before + [OnTrade(t)] + between + [OnTrade(t)] + after) == Run(s, before + [OnTrade(t)] + between + after)
  {
    var once := before + [OnTrade(t)] + between;
    var first := before + [OnTrade(t)];
    assert first[..|before|] == before && once[..|first|] == first;
    TradesOnlyGrow(s, before, |before|);
    TradesOnlyGrow(s, once, |first|);
    KeepsTrades(Run(s, before), OnTrade(t));
    assert (once + [OnTrade(t)])[..|once|] == once;
    assert Run(s, once + [OnTrade(t)]) == Run(s, once);
    RunConcat(s, once + [OnTrade(t)], after);
    RunConcat(s, once, after);
    hide After, RowOf;
  }

  // ---- cancelling

  /** A live order can be cancelled exactly if its row tells what it reserved, which a stop-market buy does not; and that
      frees what its rest needs. */
  lemma {:induction false} CancelIff(s: State, i: nat)
    requires Sound(s) && i < |s.rows| && RowOf(s.rows, s.rows[i].id) == i && Live(s.rows[i])
    ensures var r := s.rows[i]; var key := (r.user, Pays(s.markets, r.market, r.side));
            var op := CancelOrder(r.user, r.id);
            && (Refusal(s, op).None? <==> r.side == Sell || r.price.Some?)
            && s.balances[key].locked >= Need(r)
            && (Refusal(s, op).None? ==> After(s, op).balances == Adjust(s.balances, key, Need(r), -Need(r)))
  {
    var r := s.rows[i];
    var key := (r.user, Pays(s.markets, r.market, r.side));
    assert RowOk(s, r);
    NeedAtLeast(s, s.rows, i, key);
    assert Slack(s, key) >= 0;
    hide NeedOf, Cost;
  }

  lemma {:induction false} NeedAtLeast(s: State, rows: seq<Row>, i: nat, key: Key)
    requires i < |rows| && key == (rows[i].user, Pays(s.markets, rows[i].market, rows[i].side))
    requires forall k :: 0 <= k < |rows| ==> RowOk(s, rows[k])
    ensures NeedOf(s.markets, rows, key) >= Need(rows[i])
  {
    NeedNonNegative(s, rows[1..], key);
    CostNonNegative(rows[0].side, LimitPrice(rows[0]), rows[0].remaining);
    if i > 0 {
      NeedAtLeast(s, rows[1..], i - 1, key);
    }
    hide Cost;
  }

  /** Placing and cancelling a limit order gives everything back. */
  lemma {:induction false} CreateThenCancel(s: State, op: Op)
    requires op.Create? && op.kind == LimitOrder && Refusal(s, op).None?
    ensures var placed := After(s, op); var c := CancelOrder(op.user, op.id);
            Refusal(placed, c).None? && After(placed, c).balances == s.balances
  {
    RowOfLast(s.rows, After(s, op).rows[|s.rows|]);
    var key := (op.user, Pays(s.markets, op.market, op.side));
    assert s.balances[key := Balance(s.balances[key].available, s.balances[key].locked)] == s.balances;
    hide RowOf, Cost;
  }

  lemma {:induction false} RowOfLast(rows: seq<Row>, r: Row)
    requires RowOf(rows, r.id) == |rows|
    ensures RowOf(rows + [r], r.id) == |rows|
  {
    RowOfAppend(rows, r, r.id);
  }

  lemma {:induction false} RowOfAppend(rows: seq<Row>, r: Row, id: string)
    ensures RowOf(rows + [r], id) == if RowOf(rows, id) < |rows| || r.id == id then RowOf(rows, id) else |rows| + 1
  {
    if rows == [] {
      assert rows + [r] == [r] && [r][1..] == [];
    } else {
      assert (rows + [r])[0] == rows[0] && (rows + [r])[1..] == rows[1..] + [r];
      RowOfAppend(rows[1..], r, id);
    }
  }

  // ---- what goes wrong out of order

  /** Accepting an order keeps the balances covered exactly if the order is still live or has nothing left. */
  lemma {:induction false} AcceptIff(s: State, op: Op)
    requires op.OnAccepted? && Refusal(s, op).None?
    ensures var r := s.rows[RowOf(s.rows, op.id)]; var key := (r.user, Pays(s.markets, r.market, r.side));
            Slack(After(s, op), key) == Slack(s, key) <==> Live(r) || Cost(r.side, LimitPrice(r), r.remaining) == 0
  {
    var i := RowOf(s.rows, op.id);
    var r := s.rows[i];
    NeedUpdate(s.markets, s.rows, i, r.(status := Open), (r.user, Pays(s.markets, r.market, r.side)));
    hide NeedOf, Cost;
  }

  /** Settling a trade keeps to the declared gain exactly if neither order was dead, unless nothing had been set aside for
      the dead one: a trade that arrives after a cancellation overdraws, and no other trade does. */
  lemma {:induction false} SettleIff(s: State, t: Trade)
    requires Between(s, t) && t.id !in s.trades && t.quantity >= 0 && LimitPrice(s.rows[RowOf(s.rows, t.buyOrder)]) >= 0
    ensures var b, q := s.rows[RowOf(s.rows, t.buyOrder)], s.rows[RowOf(s.rows, t.sellOrder)];
            (forall key :: Slack(After(s, OnTrade(t)), key) == Slack(s, key) + Gain(s, OnTrade(t), key))
            <==> (Live(b) || LimitPrice(b) * t.quantity == 0) && (Live(q) || t.quantity == 0)
  {
    hide Slack, Gain, RowOf;
    var b, q := s.rows[RowOf(s.rows, t.buyOrder)], s.rows[RowOf(s.rows, t.sellOrder)];
    forall key ensures Slack(After(s, OnTrade(t)), key) == Slack(s, key) + Gain(s, OnTrade(t), key) - Loss(s, t, key) {
      SettleSlack(s, t, key);
    }
    CostNonNegative(Buy, LimitPrice(b), t.quantity);
    var buyer, seller := (t.buyer, s.markets[t.market].quote), (t.seller, s.markets[t.market].base);
    assert Loss(s, t, buyer) == 0 && Loss(s, t, seller) == 0 ==> (Live(b) || LimitPrice(b) * t.quantity == 0) && (Live(q) || t.quantity == 0);
    assert Slack(After(s, OnTrade(t)), buyer) == Slack(s, buyer) + Gain(s, OnTrade(t), buyer) - Loss(s, t, buyer);
    assert Slack(After(s, OnTrade(t)), seller) == Slack(s, seller) + Gain(s, OnTrade(t), seller) - Loss(s, t, seller);
  }

  const EXAMPLE := State(map["SOL-USDC" := Market("SOL", "USDC")],
                         map[("ann", "USDC") := Balance(100, 0), ("bob", "SOL") := Balance(10, 0)], [], {})

  const ANN_BUYS := Create("b", "ann", "SOL-USDC", Buy, LimitOrder, 10, 0, 10)
  const BOB_SELLS := Create("s", "bob", "SOL-USDC", Sell, LimitOrder, 10, 0, 10)

  /** The event that an order was accepted brings a cancelled order back to life: it can be cancelled a second time. */
  lemma {:induction false} LateAcceptanceRefundsTwice()
    ensures var s := Next(Next(Next(Next(EXAMPLE, ANN_BUYS), CancelOrder("ann", "b")), OnAccepted("b")), CancelOrder("ann", "b"));
            s.balances[("ann", "USDC")] == Balance(200, -100)
  {
    var s1 := Next(EXAMPLE, ANN_BUYS);
    assert s1.rows == [Row("b", "ann", "SOL-USDC", Buy, LimitOrder, Pending, Some(10), 10, 0, 10)];
    assert s1.balances[("ann", "USDC")] == Balance(0, 100);
    var s2 := Next(s1, CancelOrder("ann", "b"));
    assert s2.rows == [s1.rows[0].(status := Cancelled)] && s2.balances[("ann", "USDC")] == Balance(100, 0);
    var s3 := Next(s2, OnAccepted("b"));
    assert s3.rows == [s1.rows[0].(status := Open)] && s3.balances == s2.balances;
  }

  const LATE_TRADE := Trade("t", "SOL-USDC", "b", "s", "ann", "bob", 10, 10, 0, 0, Sell)

  /** Both orders are placed and the buyer has cancelled. */
  ghost function BuyerGone(): State { Next(Next(Next(EXAMPLE, ANN_BUYS), BOB_SELLS), CancelOrder("ann", "b")) }

  /** An input where the condition fails: a trade settled after its buyer cancelled takes what was already given back. */
  lemma {:induction false} CancelBeforeSettlementOverdraws()
    ensures var bs := Next(BuyerGone(), OnTrade(LATE_TRADE)).balances; ("ann", "USDC") in bs && bs[("ann", "USDC")] == Balance(100, -100)
  {
    hide BuyerGone, RowOf, Fill;
    BuyerHasGone();
  }

  lemma {:induction false} BuyerHasGone()
    ensures var s := BuyerGone();
            && ("ann", "USDC") in s.balances && s.balances[("ann", "USDC")] == Balance(100, 0)
            && ("bob", "SOL") in s.balances && s.balances[("bob", "SOL")] == Balance(0, 10)
            && s.trades == {} && s.markets == EXAMPLE.markets
  {
    var s1 := Next(EXAMPLE, ANN_BUYS);
    assert s1.rows == [Row("b", "ann", "SOL-USDC", Buy, LimitOrder, Pending, Some(10), 10, 0, 10)];
    assert s1.balances == EXAMPLE.balances[("ann", "USDC") := Balance(0, 100)];
    var s2 := Next(s1, BOB_SELLS);
    assert RowOf(s1.rows, "s") == 1;
    assert s2.rows == s1.rows + [Row("s", "bob", "SOL-USDC", Sell, LimitOrder, Pending, Some(10), 10, 0, 10)];
    assert s2.balances[("ann", "USDC")] == Balance(0, 100) && s2.balances[("bob", "SOL")] == Balance(0, 10);
  }

  // ---- what a trade does to the sum of all balances

  ghost function Held(bs: map<Key, Balance>, key: Key): int {
    if key in bs then bs[key].available + bs[key].locked else 0
  }

  /** The amount of an asset that the listed accounts hold. */
  ghost function TotalOf(keys: seq<Key>, bs: map<Key, Balance>, asset: string): int {
    if keys == [] then 0 else (if keys[0].1 == asset then Held(bs, keys[0]) else 0) + TotalOf(keys[1..], bs, asset)
  }

  ghost predicate Distinct(keys: seq<Key>) {
    forall i, j :: 0 <= i < j < |keys| ==> keys[i] != keys[j]
  }

  lemma {:induction false} TotalUntouched(keys: seq<Key>, bs: map<Key, Balance>, bs': map<Key, Balance>, asset: string)
    requires forall k :: k in keys ==> Held(bs', k) == Held(bs, k)
    ensures TotalOf(keys, bs', asset) == TotalOf(keys, bs, asset)
  {
    if keys != [] {
      assert keys[0] in keys;
      TotalUntouched(keys[1..], bs, bs', asset);
    }
  }

  lemma {:induction false} TotalChange(keys: seq<Key>, bs: map<Key, Balance>, bs': map<Key, Balance>, key: Key, asset: string)
    requires Distinct(keys) && key in keys && forall k :: k != key ==> Held(bs', k) == Held(bs, k)
    ensures TotalOf(keys, bs', asset) == TotalOf(keys, bs, asset) + if key.1 == asset then Held(bs', key) - Held(bs, key) else 0
  {
    if keys[0] == key {
      assert forall k :: k in keys[1..] ==> k != key;
      TotalUntouched(keys[1..], bs, bs', asset);
    } else {
      assert Distinct(keys[1..]);
      TotalChange(keys[1..], bs, bs', key, asset);
    }
    hide Held;
  }

  /** A settled trade only moves what the parties own, but for the seller's fee, which leaves the balances; the buyer's
      fee is never taken from them. */
  lemma {:induction false} TradeConserves(keys: seq<Key>, bs: map<Key, Balance>, m: Market, t: Trade, asset: string)
    requires Distinct(keys) && (t.buyer, m.quote) in bs && (t.seller, m.base) in bs
    requires forall u, a :: u in {t.buyer, t.seller} && a in {m.base, m.quote} ==> (u, a) in keys
    ensures TotalOf(keys, Settled(bs, m, t), asset) == TotalOf(keys, bs, asset) - if asset == m.quote then SellerFee(t) else 0
  {
    hide TotalOf, Distinct;
    var paid := Adjust(bs, (t.buyer, m.quote), 0, -(t.price * t.quantity));
    var got := Upsert(paid, (t.buyer, m.base), t.quantity);
    var given := Adjust(got, (t.seller, m.base), 0, -t.quantity);
    assert forall u, a :: u in {t.buyer, t.seller} && a in {m.base, m.quote} ==> (u, a) in keys;
    TotalChange(keys, bs, paid, (t.buyer, m.quote), asset);
    TotalChange(keys, paid, got, (t.buyer, m.base), asset);
    TotalChange(keys, got, given, (t.seller, m.base), asset);
    TotalChange(keys, given, Settled(bs, m, t), (t.seller, m.quote), asset);
  }

  // ---- the services, statement by statement

  class LedgerStore {
    const markets: map<string, Market>
    var balances: map<Key, Balance>
    var rows: seq<Row>
    var trades: set<string>

    ghost function View(): State
      reads this
    {
      State(markets, balances, rows, trades)
    }

    constructor (markets: map<string, Market>, balances: map<Key, Balance>)
      ensures View() == State(markets, balances, [], {})
    {
      this.markets, this.balances, rows, trades := markets, balances, [], {};
    }

    method FindRow(id: string) returns (i: nat)
      ensures i == RowOf(rows, id)
    {
      i := 0;
      while i < |rows| && rows[i].id != id
        invariant i <= |rows| && forall j :: 0 <= j < i ==> rows[j].id != id
      {
        i := i + 1;
      }
      RowOfIs(rows, id, i);
    }

    static lemma {:induction false} RowOfIs(rows: seq<Row>, id: string, i: nat)
      requires i <= |rows| && (i < |rows| ==> rows[i].id == id) && forall j :: 0 <= j < i ==> rows[j].id != id
      ensures RowOf(rows, id) == i
    {
      if i > 0 {
        RowOfIs(rows[1..], id, i - 1);
      }
    }

    method CreateOrder(op: Op) returns (error: Option<Error>)
      requires op.Create?
      modifies this
      ensures error == Refusal(old(View()), op) && View() == Next(old(View()), op)
    {
      if op.market !in markets {
        return Some(NotFound);
      }
      var market := markets[op.market];
      var isStop := op.kind == StopLimit || op.kind == StopMarket;
      var price := if op.kind == MarketOrder then 0 else if op.kind == StopMarket then op.stopPrice else op.price;
      var key := (op.user, if op.side == Buy then market.quote else market.base);
      var reserve;
      if op.kind == MarketOrder && op.side == Buy {
        reserve := if key in balances then balances[key].available else 0;
      } else {
        reserve := if op.side == Buy then price * op.quantity else op.quantity;
      }
      if key !in balances || balances[key].available < reserve {
        return Some(InsufficientBalance);
      }
      var i := FindRow(op.id);
      if i < |rows| {
        return Some(DuplicateId);
      }
      balances := balances[key := Balance(balances[key].available - reserve, balances[key].locked + reserve)];
      rows := rows + [Row(op.id, op.user, op.market, op.side, op.kind, if isStop then Open else Pending,
                          if op.kind == StopMarket then None else Some(price), op.quantity, 0, op.quantity)];
      return None;
    }

    /** Gives back what the rest of a row reserves, unless that cannot be told from the row. */
    method ReleaseRow(i: nat, status: Status) returns (error: Option<Error>)
      requires i < |rows|
      modifies this
      ensures error == ReleaseRefusal(old(View()), i)
      ensures error.Some? ==> View() == old(View())
      ensures error.None? ==> View() == Release(old(View()), i, status)
    {
      var r := rows[i];
      var key := (r.user, Pays(markets, r.market, r.side));
      if r.side == Buy && r.price == None {
        return Some(Thrown);
      }
      var amount := if r.side == Buy then r.price.value * r.remaining else r.remaining;
      if key !in balances {
        return Some(Thrown);
      }
      rows := rows[i := r.(status := status)];
      balances := balances[key := Balance(balances[key].available + amount, balances[key].locked - amount)];
      return None;
    }

    method Cancel(user: string, id: string) returns (error: Option<Error>)
      modifies this
      ensures error == Refusal(old(View()), CancelOrder(user, id)) && View() == Next(old(View()), CancelOrder(user, id))
    {
      hide RowOf;
      var i := FindRow(id);
      if i == |rows| || rows[i].user != user {
        return Some(NotFound);
      }
      if rows[i].status != Pending && rows[i].status != Open {
        return Some(BadRequest);
      }
      error := ReleaseRow(i, Cancelled);
    }

    method Accepted(id: string) returns (error: Option<Error>)
      modifies this
      ensures error == Refusal(old(View()), OnAccepted(id)) && View() == Next(old(View()), OnAccepted(id))
    {
      hide RowOf;
      var i := FindRow(id);
      if i == |rows| {
        return Some(Thrown);
      }
      rows := rows[i := rows[i].(status := Open)];
      return None;
    }

    method Rejected(id: string) returns (error: Option<Error>)
      modifies this
      ensures error == Refusal(old(View()), OnRejected(id)) && View() == Next(old(View()), OnRejected(id))
    {
      hide RowOf;
      var i := FindRow(id);
      if i == |rows| || (rows[i].status != Pending && rows[i].status != Open) {
        return Some(NotFound);
      }
      error := ReleaseRow(i, Refused);
    }

    /** The balance part of a settlement; nothing changes if a payer has no balance row. */
    method SettleTrade(t: Trade)
      requires t.market in markets
      modifies this`balances
      ensures balances == if CanPay(old(View()), t) then Settled(old(balances), markets[t.market], t) else old(balances)
      ensures CanPay(old(View()), t) ==> forall key :: Paid(old(balances), balances, markets[t.market], t, key)
    {
      var m := markets[t.market];
      var totalQuote := t.price * t.quantity;
      var sellerReceives := totalQuote - if t.takerSide == Sell then t.takerFee else t.makerFee;
      var buyerQuote, buyerBase, sellerBase, sellerQuote := (t.buyer, m.quote), (t.buyer, m.base), (t.seller, m.base), (t.seller, m.quote);
      if buyerQuote in balances && sellerBase in balances {
        forall key ensures Paid(balances, Settled(balances, m, t), m, t, key) {
          SettledPays(balances, m, t, key);
        }
        Shift(buyerQuote, 0, -totalQuote);
        AddAvailable(buyerBase, t.quantity);
        Shift(sellerBase, 0, -t.quantity);
        AddAvailable(sellerQuote, sellerReceives);
      }
    }

    method Shift(key: Key, available: int, locked: int)
      requires key in balances
      modifies this`balances
      ensures balances == Adjust(old(balances), key, available, locked)
    {
      balances := balances[key := Balance(balances[key].available + available, balances[key].locked + locked)];
    }

    method AddAvailable(key: Key, amount: int)
      modifies this`balances
      ensures balances == Upsert(old(balances), key, amount)
    {
      if key in balances {
        Shift(key, amount, 0);
      } else {
        balances := balances[key := Balance(amount, 0)];
      }
    }

    method FillRow(id: string, quantity: int)
      modifies this`rows
      ensures rows == Fill(old(rows), id, quantity)
    {
      var i := FindRow(id);
      if i < |rows| {
        rows := rows[i := rows[i].(filled := rows[i].filled + quantity, remaining := rows[i].remaining - quantity)];
      }
    }

    /** The consumer of trade events: each trade id is settled once. */
    method ConsumeTrade(t: Trade)
      modifies this
      ensures View() == Next(old(View()), OnTrade(t))
      ensures t.id !in old(trades) && t.market in markets && CanPay(old(View()), t) ==>
                forall key :: Paid(old(balances), balances, markets[t.market], t, key)
    {
      hide RowOf, Fill, Settled, Paid;
      if t.id in trades || t.market !in markets {
        return;
      }
      trades := trades + {t.id};
      var paid := (t.buyer, markets[t.market].quote) in balances && (t.seller, markets[t.market].base) in balances;
      SettleTrade(t);
      if paid {
        FillRow(t.buyOrder, t.quantity);
        FillRow(t.sellOrder, t.quantity);
      }
    }

    method CreditAccount(user: string, asset: string, amount: int)
      modifies this
      ensures View() == Next(old(View()), Credit(user, asset, amount))
    {
      AddAvailable((user, asset), amount);
    }

    method DebitAccount(user: string, asset: string, amount: int) returns (error: Option<Error>)
      modifies this
      ensures error == Refusal(old(View()), Debit(user, asset, amount)) && View() == Next(old(View()), Debit(user, asset, amount))
    {
      if (user, asset) !in balances || balances[(user, asset)].available < amount {
        return Some(InsufficientBalance);
      }
      Shift((user, asset), -amount, 0);
      return None;
    }
  }
}
