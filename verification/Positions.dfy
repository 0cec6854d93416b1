/** Positions: average entry price, realized profit, and what both amount to over a whole history. */
module Positions {
  import opened SortedEntries

  datatype PositionSide = Long | Short

  datatype Position = Position(quantity: real, avgEntryPrice: real, realizedPnl: real)

  /** A trade that opens or adds to the position, or a close of at most what is open. */
  datatype Move = Open(quantity: real, price: real) | Close(quantity: real, exitPrice: real)

  function MinReal(a: real, b: real): real { if a <= b then a else b }

  function Signed(side: PositionSide, amount: real): real { if side == Long then amount else -amount }

  ghost function Quantity(p: Option<Position>): real { if p.Some? then p.value.quantity else 0.0 }

  ghost function Realized(p: Option<Position>): real { if p.Some? then p.value.realizedPnl else 0.0 }

  ghost function AvgEntry(p: Option<Position>): real { if p.Some? then p.value.avgEntryPrice else 0.0 }

  function NewAverage(p: Position, quantity: real, price: real): real
    requires p.quantity + quantity != 0.0
  {
    (p.avgEntryPrice * p.quantity + price * quantity) / (p.quantity + quantity)
  }

  function Profit(side: PositionSide, p: Position, closeQty: real, exitPrice: real): real {
    Signed(side, exitPrice - p.avgEntryPrice) * closeQty
  }

  ghost function After(side: PositionSide, p: Option<Position>, m: Move): Option<Position>
    requires Valid(m) && Quantity(p) >= 0.0
  {
    match m
    case Open(q, price) =>
      if p.None? then Some(Position(q, price, 0.0))
      else Some(p.value.(quantity := p.value.quantity + q, avgEntryPrice := NewAverage(p.value, q, price)))
    case Close(q, exitPrice) =>
      if p.None? then None
      else
        var c := MinReal(q, p.value.quantity);
        Some(p.value.(quantity := p.value.quantity - c, realizedPnl := p.value.realizedPnl + Profit(side, p.value, c, exitPrice)))
  }

  // ---- runs, and the cash they move

  predicate Valid(m: Move) { m.quantity > 0.0 }

  ghost function Run(side: PositionSide, moves: seq<Move>): (p: Option<Position>)
    requires forall m :: m in moves ==> Valid(m)
    ensures Quantity(p) >= 0.0
  {
    if moves == [] then None
    else
      assert moves[|moves| - 1] in moves;
      After(side, Run(side, moves[..|moves| - 1]), moves[|moves| - 1])
  }

  /** Quantity that a move really opens or closes. */
  ghost function Opened(m: Move): real { if m.Open? then m.quantity else 0.0 }

  ghost function Closed(p: Option<Position>, m: Move): real { if m.Close? then MinReal(m.quantity, Quantity(p)) else 0.0 }

  /** Cash paid to enter, and cash got on leaving. */
  datatype Flows = Flows(entered: real, entryCost: real, left: real, exitProceeds: real)

  function Value(price: real, quantity: real): real { price * quantity }

  ghost function FlowsOf(side: PositionSide, moves: seq<Move>): Flows
    requires forall m :: m in moves ==> Valid(m)
  {
    if moves == [] then Flows(0.0, 0.0, 0.0, 0.0)
    else Plus(FlowsOf(side, moves[..|moves| - 1]), Run(side, moves[..|moves| - 1]), moves[|moves| - 1])
  }

  ghost function Plus(f: Flows, p: Option<Position>, m: Move): Flows {
    match m
    case Open(q, price) => f.(entered := f.entered + q, entryCost := f.entryCost + Value(price, q))
    case Close(_, exitPrice) =>
      f.(left := f.left + Closed(p, m), exitProceeds := f.exitProceeds + Value(exitPrice, Closed(p, m)))
  }

  lemma {:induction false} AverageIsWeighted(avg: real, q: real, price: real, d: real)
    requires q + d != 0.0
    ensures Value((avg * q + price * d) / (q + d), q + d) == Value(avg, q) + Value(price, d)
  {
  }

  lemma {:induction false} ValueSpreads(a: real, b: real, q: real)
    ensures Value(a - b, q) == Value(a, q) - Value(b, q)
    ensures Value(q, a - b) == Value(q, a) - Value(q, b)
    ensures Value(-a, q) == -Value(a, q)
  {
  }

  lemma {:induction false} ValueIs(price: real, quantity: real)
    ensures Value(price, quantity) == price * quantity
  {
  }

  ghost predicate Balanced(side: PositionSide, p: Option<Position>, f: Flows) {
    && Quantity(p) == f.entered - f.left
    && Realized(p) == Signed(side, f.exitProceeds + Value(AvgEntry(p), Quantity(p)) - f.entryCost)
  }

  lemma {:induction false} OpenEffect(side: PositionSide, p: Option<Position>, m: Move)
    requires Valid(m) && m.Open? && Quantity(p) >= 0.0
    ensures var p' := After(side, p, m);
            && p'.Some? && Quantity(p') == Quantity(p) + m.quantity && Realized(p') == Realized(p)
            && Value(AvgEntry(p'), Quantity(p')) == Value(AvgEntry(p), Quantity(p)) + Value(m.price, m.quantity)
  {
    if p.Some? {
      AverageIsWeighted(p.value.avgEntryPrice, p.value.quantity, m.price, m.quantity);
    } else {
      assert Value(0.0, 0.0) == 0.0;
    }
  }

  lemma {:induction false} CloseEffect(side: PositionSide, p: Option<Position>, m: Move)
    requires Valid(m) && m.Close? && Quantity(p) >= 0.0
    ensures var p', c := After(side, p, m), Closed(p, m);
            && (p'.None? <==> p.None?) && (p.None? ==> c == 0.0 && Value(m.exitPrice, c) == 0.0)
            && Quantity(p') == Quantity(p) - c
            && Realized(p') == Realized(p) + Signed(side, Value(m.exitPrice, c) - Value(AvgEntry(p), c))
            && Value(AvgEntry(p'), Quantity(p')) == Value(AvgEntry(p), Quantity(p)) - Value(AvgEntry(p), c)
  {
    var c := Closed(p, m);
    ValueSpreads(m.exitPrice, AvgEntry(p), c);
    ValueSpreads(Quantity(p), c, AvgEntry(p));
  }

  /** One move keeps profit and cash in balance. */
  lemma {:induction false} MoveBalances(side: PositionSide, p: Option<Position>, m: Move, f: Flows)
    requires Valid(m) && Quantity(p) >= 0.0 && Balanced(side, p, f)
    requires p.None? ==> f == Flows(0.0, 0.0, 0.0, 0.0)
    ensures Balanced(side, After(side, p, m), Plus(f, p, m))
    ensures After(side, p, m).None? ==> Plus(f, p, m) == Flows(0.0, 0.0, 0.0, 0.0)
  {
    hide After, Value, Closed;
    match m
    case Open(_, _) => OpenEffect(side, p, m);
    case Close(_, _) => CloseEffect(side, p, m);
  }

  lemma {:induction false} RunBalances(side: PositionSide, moves: seq<Move>)
    requires forall m :: m in moves ==> Valid(m)
    ensures Balanced(side, Run(side, moves), FlowsOf(side, moves))
    ensures Run(side, moves).None? ==> FlowsOf(side, moves) == Flows(0.0, 0.0, 0.0, 0.0)
  {
    hide After, Plus;
    if moves == [] {
      assert Value(0.0, 0.0) == 0.0;
    } else {
      var m := moves[|moves| - 1];
      assert m in moves;
      RunBalances(side, moves[..|moves| - 1]);
      MoveBalances(side, Run(side, moves[..|moves| - 1]), m, FlowsOf(side, moves[..|moves| - 1]));
      hide Balanced;
    }
  }

  /** Over every run: what is open is what was entered less what was left, and a long position has realized exit proceeds plus
      average entry price times quantity less entry cost, a short one the negative of that. */
  lemma {:induction false} RealizedIsCash(side: PositionSide, moves: seq<Move>)
    requires forall m :: m in moves ==> Valid(m)
    ensures var p, f := Run(side, moves), FlowsOf(side, moves);
            && Quantity(p) == f.entered - f.left
            && (side == Long ==> Realized(p) == f.exitProceeds + AvgEntry(p) * Quantity(p) - f.entryCost)
            && (side == Short ==> Realized(p) == f.entryCost - AvgEntry(p) * Quantity(p) - f.exitProceeds)
  {
    hide Run, FlowsOf, Value;
    RunBalances(side, moves);
    ValueIs(AvgEntry(Run(side, moves)), Quantity(Run(side, moves)));
  }

  function Unrealized(side: PositionSide, p: Position, mark: real): real {
    Signed(side, mark - p.avgEntryPrice) * p.quantity
  }

  /** Realized plus unrealized profit depends on the cash that moved and on the mark, not on how entries were averaged,
      closed and opened again. */
  lemma {:induction false} TotalIsCashAndMark(side: PositionSide, moves: seq<Move>, mark: real)
    requires (forall m :: m in moves ==> Valid(m)) && Run(side, moves).Some?
    ensures var p, f := Run(side, moves).value, FlowsOf(side, moves);
            && (side == Long ==> p.realizedPnl + Unrealized(side, p, mark) == f.exitProceeds - f.entryCost + mark * (f.entered - f.left))
            && (side == Short ==> p.realizedPnl + Unrealized(side, p, mark) == f.entryCost - f.exitProceeds - mark * (f.entered - f.left))
  {
    hide Run, FlowsOf, Value, Unrealized;
    RunBalances(side, moves);
    ValueIs(mark, FlowsOf(side, moves).entered - FlowsOf(side, moves).left);
    ValueIs(Run(side, moves).value.avgEntryPrice, Run(side, moves).value.quantity);
    UnrealizedIs(side, Run(side, moves).value, mark);
  }

  lemma {:induction false} UnrealizedIs(side: PositionSide, p: Position, mark: real)
    ensures Unrealized(side, p, mark) == Signed(side, Value(mark, p.quantity) - Value(p.avgEntryPrice, p.quantity))
  {
    ValueSpreads(mark, p.avgEntryPrice, p.quantity);
  }

  /** While anything is open the average entry price lies between the lowest and the highest entry so far. */
  lemma {:induction false} AverageWithin(side: PositionSide, moves: seq<Move>, lo: real, hi: real)
    requires forall m :: m in moves ==> Valid(m) && (m.Open? ==> lo <= m.price <= hi)
    requires Run(side, moves).Some?
    ensures lo <= Run(side, moves).value.avgEntryPrice <= hi
  {
    if moves != [] {
      var before, m := moves[..|moves| - 1], moves[|moves| - 1];
      var p := Run(side, before);
      assert m in moves;
      if p.Some? {
        AverageWithin(side, before, lo, hi);
      }
      AverageStep(side, p, m, lo, hi);
    }
    hide After;
  }

  lemma {:induction false} AverageStep(side: PositionSide, p: Option<Position>, m: Move, lo: real, hi: real)
    requires Valid(m) && Quantity(p) >= 0.0 && (m.Open? ==> lo <= m.price <= hi)
    requires p.Some? ==> lo <= p.value.avgEntryPrice <= hi
    ensures After(side, p, m).Some? ==> lo <= After(side, p, m).value.avgEntryPrice <= hi
  {
    if p.Some? && m.Open? {
      AverageBetween(p.value.avgEntryPrice, p.value.quantity, m.price, m.quantity, lo, hi);
    }
  }

  lemma {:induction false} AverageBetween(a: real, q: real, p: real, d: real, lo: real, hi: real)
    requires q >= 0.0 && d > 0.0 && lo <= a <= hi && lo <= p <= hi
    ensures lo <= (a * q + p * d) / (q + d) <= hi
  {
    var n, s := q + d, a * q + p * d;
    TimesKeepsOrder(lo, a, q);
    TimesKeepsOrder(lo, p, d);
    TimesKeepsOrder(a, hi, q);
    TimesKeepsOrder(p, hi, d);
    assert lo * n == lo * q + lo * d && hi * n == hi * q + hi * d;
    Between(lo, s, hi, n);
  }

  lemma {:induction false} TimesKeepsOrder(a: real, b: real, c: real)
    requires a <= b && c >= 0.0
    ensures a * c <= b * c
  {
  }

  lemma {:induction false} Between(lo: real, s: real, hi: real, n: real)
    requires n > 0.0 && lo * n <= s <= hi * n
    ensures lo <= s / n <= hi
  {
  }

  // ---- the portfolio total

  datatype Holding = Holding(side: PositionSide, position: Position, mark: real)

  ghost function RealizedOf(hs: seq<Holding>): real {
    if hs == [] then 0.0 else RealizedOf(hs[..|hs| - 1]) + hs[|hs| - 1].position.realizedPnl
  }

  /** What was realized on positions that are closed now. */
  ghost function RealizedOnClosed(hs: seq<Holding>): real {
    if hs == [] then 0.0
    else RealizedOnClosed(hs[..|hs| - 1]) + if hs[|hs| - 1].position.quantity == 0.0 then hs[|hs| - 1].position.realizedPnl else 0.0
  }

  ghost function UnrealizedOf(hs: seq<Holding>): real {
    if hs == [] then 0.0
    else UnrealizedOf(hs[..|hs| - 1]) + Unrealized(hs[|hs| - 1].side, hs[|hs| - 1].position, hs[|hs| - 1].mark)
  }

  /** The totals of a portfolio. Closed positions are skipped, so what they realized drops out. */
  method PortfolioTotals(hs: seq<Holding>) returns (unrealized: real, realized: real)
    ensures unrealized == UnrealizedOf(hs)
    ensures realized == RealizedOf(hs) - RealizedOnClosed(hs)
  {
    unrealized, realized := 0.0, 0.0;
    for i := 0 to |hs|
      invariant unrealized == UnrealizedOf(hs[..i])
      invariant realized == RealizedOf(hs[..i]) - RealizedOnClosed(hs[..i])
    {
      var h := hs[i];
      assert hs[..i + 1][..i] == hs[..i];
      if h.position.quantity == 0.0 {
        continue;
      }
      realized := realized + h.position.realizedPnl;
      var diff := h.mark - h.position.avgEntryPrice;
      unrealized := unrealized + (if h.side == Long then diff else -diff) * h.position.quantity;
    }
    assert hs[..|hs|] == hs;
  }

  /** A position bought at 10 and sold at 15 has realized 5; once closed it adds nothing to the total. */
  lemma {:induction false} ClosedProfitDropsOut()
    ensures After(Long, After(Long, None, Open(1.0, 10.0)), Close(1.0, 15.0)) == Some(Position(0.0, 10.0, 5.0))
    ensures var hs := [Holding(Long, Position(0.0, 10.0, 5.0), 15.0)]; RealizedOf(hs) == RealizedOnClosed(hs) == 5.0
  {
    var h := Holding(Long, Position(0.0, 10.0, 5.0), 15.0);
    assert [h][..0] == [];
  }

  // ---- the service

  datatype Key = Key(user: string, market: string, side: PositionSide)

  class PositionStore {
    var positions: map<Key, Position>

    ghost function View(key: Key): Option<Position>
      reads this
    {
      if key in positions then Some(positions[key]) else None
    }

    constructor ()
      ensures positions == map[]
    {
      positions := map[];
    }

    /** A buyer's trade adds to the long position, a seller's to the short one. */
    method UpdateFromTrade(key: Key, quantity: real, price: real)
      requires Quantity(View(key)) >= 0.0 && quantity > 0.0
      modifies this
      ensures View(key) == After(key.side, old(View(key)), Open(quantity, price)) && key in positions
      ensures key !in old(positions) ==> positions[key] == Position(quantity, price, 0.0)
      ensures key in old(positions) ==>
                var p, p' := old(positions)[key], positions[key];
                && p'.quantity == p.quantity + quantity && p'.realizedPnl == p.realizedPnl
                && p'.avgEntryPrice * p'.quantity == p.avgEntryPrice * p.quantity + price * quantity
      ensures positions == if key in positions then old(positions)[key := positions[key]] else old(positions)
    {
      if key !in positions {
        positions := positions[key := Position(quantity, price, 0.0)];
        return;
      }
      var existing := positions[key];
      var newAvg := NewAverage(existing, quantity, price);
      positions := positions[key := existing.(quantity := existing.quantity + quantity, avgEntryPrice := newAvg)];
      hide NewAverage;
    }

    method ClosePosition(key: Key, quantity: real, exitPrice: real)
      requires Quantity(View(key)) >= 0.0 && quantity > 0.0
      modifies this
      ensures View(key) == After(key.side, old(View(key)), Close(quantity, exitPrice))
      ensures key !in old(positions) ==> positions == old(positions)
      ensures key in old(positions) ==>
                var p := old(positions)[key];
                var c := if quantity <= p.quantity then quantity else p.quantity;
                && key in positions && positions[key].quantity == p.quantity - c && positions[key].avgEntryPrice == p.avgEntryPrice
                && positions[key].realizedPnl == p.realizedPnl + (if key.side == Long then exitPrice - p.avgEntryPrice else p.avgEntryPrice - exitPrice) * c
      ensures positions == if key in positions then old(positions)[key := positions[key]] else old(positions)
    {
      if key !in positions {
        return;
      }
      var existing := positions[key];
      var closeQty := MinReal(quantity, existing.quantity);
      var realized := existing.realizedPnl + Profit(key.side, existing, closeQty, exitPrice);
      var remaining := existing.quantity - closeQty;
      if remaining == 0.0 {
        positions := positions[key := existing.(quantity := 0.0, realizedPnl := realized)];
      } else {
        positions := positions[key := existing.(quantity := remaining, realizedPnl := realized)];
      }
      hide Profit;
    }
  }
}
