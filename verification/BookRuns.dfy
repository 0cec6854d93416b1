/** Runs of a side of the first engine's book, at the order its index has: one order at each price, added and cancelled one
    by one. */
module BookRuns {
  import opened SortedEntries
  import opened ReferenceBook
  import opened PriorityLists
  import opened OrderLevels
  import opened Ladders
  import opened LevelIndex
  import opened BookSideV1
  import opened AscendingRows
  import R = BPlusRuns
  import B = BPlusRepair
  import E = BPlusEnds
  import W = Walks
  import O = BPlusOccupancy

  /** The order of the index. */
  const ORDER := 64

  // ---- what the queue tells about the maps

  ghost predicate HasPrice(q: seq<Maker>, price: int) {
    exists i :: 0 <= i < |q| && q[i].price == price
  }

  lemma {:induction false} HasPriceJoin(a: seq<Maker>, b: seq<Maker>, x: int)
    ensures HasPrice(a + b, x) <==> HasPrice(a, x) || HasPrice(b, x)
  {
    if HasPrice(a, x) {
      var i :| 0 <= i < |a| && a[i].price == x;
      assert (a + b)[i].price == x;
    }
    if HasPrice(b, x) {
      var i :| 0 <= i < |b| && b[i].price == x;
      assert (a + b)[|a| + i].price == x;
    }
  }

  /** The keys of the index are those of the price map. */
  lemma {:induction false} KeysMapped(side: OrderBookSide)
    requires side.Valid()
    ensures side.priceTree.order >= 2 && R.Good(side.priceTree.tree, side.priceTree.order)
    ensures var s := W.AllKeys(side.priceTree.tree);
            StrictlySorted(s) && (forall p :: p in side.priceMap <==> p in s) && |side.priceMap| == |s|
  {
    hide R.Good, R.Contents, B.KeysOf, B.Strung, ToMap, NodesOf, AllValid, IndexedBy, OrderBookSide.Leads, OrderBookSide.Wanting;
    side.SolidTree();
    var es := R.Contents(side.priceTree.tree);
    B.KeysAscend(side.priceTree.tree, side.priceTree.order);
    MapDomain(es);
    MapSize(es);
    var s := W.AllKeys(side.priceTree.tree);
    forall p ensures p in side.priceMap <==> p in s {
      if p in s {
        var i :| 0 <= i < |s| && s[i] == p;
        assert es[i].0 in ToMap(es);
      }
      if p in side.priceMap {
        var i :| 0 <= i < |es| && es[i].0 == p;
        assert s[i] == p;
      }
    }
  }

  /** Its orders are those the order map knows, and each has its level. */
  lemma {:induction false} QueueMapped(side: OrderBookSide)
    requires side.Valid()
    ensures forall i :: 0 <= i < |side.Queue()| ==>
              var m := side.Queue()[i]; m.id in side.orderMap && side.orderMap[m.id].price == m.price && m.price in side.priceMap
    ensures forall id :: id in side.orderMap ==> exists i :: 0 <= i < |side.Queue()| && side.Queue()[i].id == id
    ensures forall p :: HasPrice(side.Queue(), p) <==> exists n :: n in NodesOf(side.ladder) && n.price == p
    ensures side.emptyLevelCount == 0 ==> forall p :: p in side.priceMap ==> HasPrice(side.Queue(), p)
  {
    hide OrderBookSide.TreeOk, NodesOf, Makers, Sorted, OrderBookSide.Wanting, PriceLevel.Valid;
    var c, q := NodesOf(side.ladder), side.Queue();
    MakersAt(c);
    forall i | 0 <= i < |q|
      ensures q[i].id in side.orderMap && side.orderMap[q[i].id].price == q[i].price && q[i].price in side.priceMap {
      assert c[i] in c;
      NodeInItsLevel(side.ladder, c[i]);
    }
    forall id | id in side.orderMap ensures exists i :: 0 <= i < |q| && q[i].id == id {
      var i :| 0 <= i < |c| && c[i] == side.orderMap[id];
      assert q[i].id == id;
    }
    forall p ensures HasPrice(q, p) <==> exists n :: n in c && n.price == p {
      if HasPrice(q, p) {
        var i :| 0 <= i < |q| && q[i].price == p;
        assert c[i] in c && c[i].price == p;
      }
      if n :| n in c && n.price == p {
        var i :| 0 <= i < |c| && c[i] == n;
        assert q[i].price == p;
      }
    }
    if side.emptyLevelCount == 0 {
      DueAreEmpty(side.ladder);
      NoneDue(side.ladder);
      forall p | p in side.priceMap ensures HasPrice(q, p) {
        var l := side.priceMap[p];
        side.LevelWanting(l);
        assert l.nodes[0] in c && l.nodes[0].price == p;
      }
    }
  }

  lemma {:induction false} NoneDue(ls: seq<PriceLevel>)
    requires Due(ls) == []
    ensures forall l :: l in ls ==> l.nodes != []
  {
    if ls != [] {
      NoneDue(ls[1..]);
    }
  }

  lemma {:induction false} MissingMeans(keys: seq<int>, m: map<int, PriceLevel>)
    ensures forall x :: x in Missing(keys, m) <==> x in keys && x !in m
    ensures NoDup(keys) ==> NoDup(Missing(keys, m))
  {
    if keys != [] {
      MissingMeans(keys[1..], m);
    }
  }

  // ---- one order at each price

  /** An id for each price. */
  function Id(p: nat): (id: string)
    ensures |id| == p
  {
    seq(p, i => 'x')
  }

  function One(p: nat): Maker { Maker(Id(p), "ann", p, 1) }

  /** Each order here is the one of its price. */
  ghost predicate Named(q: seq<Maker>) {
    forall i :: 0 <= i < |q| ==> q[i].price >= 0 && q[i] == One(q[i].price)
  }

  /** A price p is given as p times the grid. */
  lemma {:induction false} KeyOf(p: nat)
    ensures PriceToBigint(p * GRID) == p
  {
  }

  /** One order at each of the prices from lo up to hi. */
  ghost function Ones(lo: nat, hi: nat): (q: seq<Maker>)
    requires lo <= hi
    ensures |q| == hi - lo && forall i :: 0 <= i < |q| ==> q[i] == One(lo + i)
    decreases hi - lo
  {
    if lo == hi then [] else [One(lo)] + Ones(lo + 1, hi)
  }

  lemma {:induction false} OnesJoin(lo: nat, mid: nat, hi: nat)
    requires lo <= mid <= hi
    ensures Ones(lo, mid) + Ones(mid, hi) == Ones(lo, hi)
  {
  }

  lemma {:induction false} OnesOne(p: nat)
    ensures Ones(p, p + 1) == [One(p)] && Ones(p, p) == []
  {
  }

  lemma {:induction false} OnesHave(lo: nat, hi: nat, p: int)
    requires lo <= hi
    ensures Named(Ones(lo, hi)) && (HasPrice(Ones(lo, hi), p) <==> lo <= p < hi)
  {
    if lo <= p < hi {
      assert Ones(lo, hi)[p - lo].price == p;
    }
  }

  lemma {:induction false} JoinsBehind(lo: nat, p: nat)
    requires lo <= p
    ensures Enqueue(Buy, Ones(lo, p), One(p)) == Ones(lo, p + 1)
  {
    EnqueueBehind(Buy, Ones(lo, p), [], One(p));
    OnesJoin(lo, p, p + 1);
    OnesOne(p);
    assert Ones(lo, p) + [] == Ones(lo, p);
    hide Enqueue, Ones;
  }

  lemma {:induction false} RemovesFirst(lo: nat, hi: nat)
    requires lo < hi
    ensures Remove(Ones(lo, hi), Id(lo), lo) == Ones(lo + 1, hi)
  {
    hide Id;
  }

  /** The same, from the highest price down. */
  ghost function Falls(lo: nat, hi: nat): (q: seq<Maker>)
    requires lo <= hi
    ensures |q| == hi - lo && forall i :: 0 <= i < |q| ==> q[i] == One(hi - 1 - i)
    decreases hi - lo
  {
    if lo == hi then [] else [One(hi - 1)] + Falls(lo, hi - 1)
  }

  lemma {:induction false} FallsHave(lo: nat, hi: nat, p: int)
    requires lo <= hi
    ensures Named(Falls(lo, hi)) && (HasPrice(Falls(lo, hi), p) <==> lo <= p < hi)
  {
    if lo <= p < hi {
      assert Falls(lo, hi)[hi - 1 - p].price == p;
    }
  }

  lemma {:induction false} FallsJoin(lo: nat, mid: nat, hi: nat)
    requires lo <= mid <= hi
    ensures Falls(mid, hi) + Falls(lo, mid) == Falls(lo, hi)
  {
  }

  lemma {:induction false} FallsOne(p: nat)
    ensures Falls(p, p + 1) == [One(p)] && Falls(p, p) == []
  {
  }

  /** The highest price comes first. */
  lemma {:induction false} FallsStep(lo: nat, p: nat)
    requires lo <= p
    ensures Enqueue(Sell, Falls(lo, p), One(p)) == Falls(lo, p + 1) && Remove(Falls(lo, p + 1), Id(p), p) == Falls(lo, p)
  {
    assert Falls(lo, p + 1)[1..] == Falls(lo, p);
    hide Id;
  }

  lemma {:induction false} JoinsLast(p: nat, hi: nat)
    requires p < hi
    ensures Enqueue(Sell, Falls(p + 1, hi), One(p)) == Falls(p, hi)
  {
    EnqueueBehind(Sell, Falls(p + 1, hi), [], One(p));
    FallsJoin(p, p + 1, hi);
    FallsOne(p);
    assert Falls(p + 1, hi) + [] == Falls(p + 1, hi);
    hide Enqueue, Falls;
  }

  lemma {:induction false} RemovesLast(p: nat, hi: nat)
    requires p < hi
    ensures Remove(Falls(p, hi), Id(p), p) == Falls(p + 1, hi)
  {
    FallsJoin(p, p + 1, hi);
    FallsOne(p);
    RemoveBehind(Falls(p + 1, hi), [One(p)], Id(p), p);
    assert Falls(p + 1, hi) + [] == Falls(p + 1, hi);
    hide Id, Falls;
  }

  /** As the queue has them: asks from the lowest price up, bids from the highest down. */
  ghost function Quoted(taker: Side, lo: nat, hi: nat): seq<Maker>
    requires lo <= hi
  {
    if taker == Buy then Ones(lo, hi) else Falls(lo, hi)
  }

  lemma {:induction false} QuotedHave(taker: Side, lo: nat, hi: nat, p: int)
    requires lo <= hi
    ensures Named(Quoted(taker, lo, hi)) && (HasPrice(Quoted(taker, lo, hi), p) <==> lo <= p < hi)
  {
    OnesHave(lo, hi, p);
    FallsHave(lo, hi, p);
    hide Ones, Falls, HasPrice, Named;
  }

  lemma {:induction false} JoinsAbove(taker: Side, lo: nat, p: nat)
    requires lo <= p
    ensures Enqueue(taker, Quoted(taker, lo, p), One(p)) == Quoted(taker, lo, p + 1)
  {
    JoinsBehind(lo, p);
    FallsStep(lo, p);
    hide Ones, Falls, Enqueue;
  }

  lemma {:induction false} JoinsBelow(taker: Side, p: nat, hi: nat)
    requires p < hi
    ensures Enqueue(taker, Quoted(taker, p + 1, hi), One(p)) == Quoted(taker, p, hi)
  {
    if taker == Sell {
      JoinsLast(p, hi);
      hide Enqueue, Falls;
    }
  }

  // ---- adding and cancelling

  /** These orders rest here. */
  ghost predicate Holds(side: OrderBookSide, taker: Side, q: seq<Maker>)
    reads side, side.priceTree, side.priceTree.repr, side.Levels(), side.Orders()
  {
    side.Valid() && side.taker == taker && side.priceTree.order == ORDER && side.Queue() == q
  }

  method NewSide(taker: Side) returns (side: OrderBookSide)
    ensures Holds(side, taker, []) && side.emptyLevelCount == 0 && side.priceTree.tree == None
    ensures fresh(side) && fresh(side.priceTree) && fresh(side.priceTree.repr) && fresh(side.Levels()) && fresh(side.Orders())
  {
    side := new OrderBookSide(taker, ORDER);
  }

  /** The id and the price are new if nobody rests there and no level is empty. */
  lemma {:induction false} IsNew(side: OrderBookSide, taker: Side, q: seq<Maker>, p: nat)
    requires Holds(side, taker, q) && Named(q) && !HasPrice(q, p) && side.emptyLevelCount == 0
    ensures Id(p) !in side.orderMap && p !in side.priceMap
  {
    QueueMapped(side);
    hide OrderBookSide.Valid;
    forall i | 0 <= i < |q| ensures q[i].id != Id(p) {
      assert |Id(q[i].price)| == q[i].price != p == |Id(p)|;
    }
  }

  method AddAt(side: OrderBookSide, p: nat, ghost taker: Side, ghost q: seq<Maker>)
    requires Holds(side, taker, q) && Named(q) && !HasPrice(q, p) && side.emptyLevelCount == 0
    modifies side, side.priceTree, side.priceTree.repr, side.Levels(), side.Orders()
    ensures Holds(side, taker, Enqueue(taker, q, One(p))) && side.emptyLevelCount == 0
    ensures (forall l :: l in side.Levels() ==> l in old(side.Levels()) || fresh(l))
    ensures (forall n :: n in side.Orders() ==> n in old(side.Orders()) || fresh(n))
    ensures fresh(side.priceTree.repr - old(side.priceTree.repr))
    ensures p in side.priceMap && R.Good(old(side.priceTree.tree), ORDER)
    ensures side.priceTree.tree == R.Insert(old(side.priceTree.tree), p, side.priceMap[p], ORDER)
  {
    hide OrderBookSide.Shaped, OrderBookSide.WidensFrom, OrderBookSide.IsFlat, Enqueue, R.Insert, Named, HasPrice;
    side.TreeIsValid();
    IsNew(side, taker, q, p);
    KeyOf(p);
    hide PriceToBigint;
    side.Add(Id(p), "ann", p * GRID, 1);
  }

  lemma {:induction false} IsKnown(side: OrderBookSide, taker: Side, q: seq<Maker>, p: nat)
    requires Holds(side, taker, q) && Named(q) && HasPrice(q, p)
    ensures Id(p) in side.orderMap && side.orderMap[Id(p)].price == p
  {
    QueueMapped(side);
    hide OrderBookSide.Valid;
    var i :| 0 <= i < |q| && q[i].price == p;
  }

  lemma {:induction false} NoPriceLeft(side: OrderBookSide, taker: Side, q: seq<Maker>, p: int)
    requires Holds(side, taker, q) && !HasPrice(q, p)
    ensures forall n :: n in NodesOf(side.ladder) ==> n.price != p
  {
    QueueMapped(side);
    hide OrderBookSide.Valid;
  }

  method Cancel(side: OrderBookSide, p: nat, ghost taker: Side, ghost q: seq<Maker>)
    requires Holds(side, taker, q) && Named(q) && HasPrice(q, p)
    modifies side, side.priceTree, side.priceTree.repr, side.Levels(), side.Orders()
    ensures Holds(side, taker, Remove(q, Id(p), p)) && side.priceTree.repr == old(side.priceTree.repr)
    ensures side.Levels() <= old(side.Levels()) && side.Orders() <= old(side.Orders())
    ensures R.Good(old(side.priceTree.tree), ORDER)
    ensures side.priceTree.tree == E.AfterAll(old(side.priceTree.tree), Missing(old(side.priceKeys), side.priceMap), ORDER)
    ensures !HasPrice(Remove(q, Id(p), p), p) ==>
              if (old(side.emptyLevelCount) + 1) * 5 > |old(side.priceMap)| then side.emptyLevelCount == 0
              else side.priceMap == old(side.priceMap) && side.emptyLevelCount == old(side.emptyLevelCount) + 1
  {
    hide OrderBookSide.Shaped, Remove, Named, HasPrice, OrderBookSide.IsFlat, R.Good, E.AfterAll, Missing;
    IsKnown(side, taker, q, p);
    side.TreeIsValid();
    side.RemoveOrder(Id(p));
    if !HasPrice(Remove(q, Id(p), p), p) {
      NoPriceLeft(side, taker, Remove(q, Id(p), p), p);
    }
  }

  /** What the map of a side has to do with its orders once no level is empty. */
  lemma {:induction false} MapIsQueue(side: OrderBookSide, taker: Side, q: seq<Maker>)
    requires Holds(side, taker, q) && side.emptyLevelCount == 0
    ensures forall p :: p in side.priceMap <==> HasPrice(q, p)
  {
    QueueMapped(side);
    hide OrderBookSide.Valid;
    forall p ensures p in side.priceMap <==> HasPrice(q, p) {
      if HasPrice(q, p) {
        var i :| 0 <= i < |q| && q[i].price == p;
      }
    }
  }

  lemma {:induction false} KeysKnown(side: OrderBookSide, taker: Side, q: seq<Maker>)
    requires Holds(side, taker, q)
    ensures R.Good(side.priceTree.tree, ORDER) && NoDup(side.priceKeys) && Missing(side.priceKeys, side.priceMap) == []
    ensures forall x :: x in side.priceKeys <==> x in side.priceMap
    ensures forall x :: x in side.priceMap <==> x in W.AllKeys(side.priceTree.tree)
    ensures |side.priceMap| == |W.AllKeys(side.priceTree.tree)|
  {
    KeysMapped(side);
    side.NoneMissing();
    side.KeysAreMapped();
    hide OrderBookSide.Shaped, R.Good, W.AllKeys, Missing;
    forall x ensures x in side.priceKeys <==> x in side.priceMap {
      if x in side.priceKeys {
        var j :| 0 <= j < |side.priceKeys| && side.priceKeys[j] == x;
      }
    }
  }

  // ---- serving them

  /** The fills of these orders, each served whole. */
  ghost function FillsOf(lo: nat, hi: nat): (fs: seq<MatchResult>)
    requires lo <= hi
    ensures |fs| == hi - lo
    decreases hi - lo
  {
    if lo == hi then [] else [FillOf(One(lo), 1)] + FillsOf(lo + 1, hi)
  }

  lemma {:induction false} FillsOfOne(p: nat)
    ensures FillsOf(p, p + 1) == [FillOf(One(p), 1)]
  {
  }

  lemma {:induction false} OnesServed(lo: nat, hi: nat, limit: int, qty: int)
    requires lo <= hi && hi - 1 <= limit && qty >= hi - lo
    ensures Fills(Buy, Some(limit), Ones(lo, hi), qty) == FillsOf(lo, hi)
    ensures FilledQty(FillsOf(lo, hi)) == hi - lo && Total(Ones(lo, hi)) == hi - lo && Positive(Ones(lo, hi))
    decreases hi - lo
  {
    if lo < hi {
      OnesServed(lo + 1, hi, limit, qty - 1);
      assert Ones(lo, hi)[1..] == Ones(lo + 1, hi) && FillsOf(lo, hi)[1..] == FillsOf(lo + 1, hi);
    }
  }

  lemma {:induction false} AtOnes(lo: nat, hi: nat, p: int)
    requires lo <= hi
    ensures W.At(Ones(lo, hi), p) == if lo <= p < hi then [One(p)] else []
    decreases hi - lo
  {
    if lo < hi {
      AtOnes(lo + 1, hi, p);
    }
  }

  lemma {:induction false} OneWaiting(q: seq<Maker>, lo: nat, hi: nat)
    requires lo <= hi && forall p :: lo <= p < hi ==> W.At(q, p) == [One(p)]
    ensures W.Waiting(q, Range(lo, hi)) == Ones(lo, hi)
    decreases hi - lo
  {
    if lo < hi {
      assert W.At(q, lo) == [One(lo)];
      OneWaiting(q, lo + 1, hi);
      assert Range(lo, hi)[1..] == Range(lo + 1, hi);
    }
  }

  lemma {:induction false} OnesWaiting(lo: nat, hi: nat)
    requires lo <= hi
    ensures W.Waiting(Ones(lo, hi), Range(lo, hi)) == Ones(lo, hi)
  {
    forall p | lo <= p < hi ensures W.At(Ones(lo, hi), p) == [One(p)] {
      AtOnes(lo, hi, p);
    }
    OneWaiting(Ones(lo, hi), lo, hi);
  }

  // ---- an index of three levels

  /** The least number of prices that takes an index grown by insertions to three levels. */
  const MANY := 4033

  ghost predicate Grown(root: R.Root<PriceLevel>) {
    R.Good(root, ORDER) && O.HalfFull(root, ORDER)
  }

  lemma {:induction false} GrownStarts(root: R.Root<PriceLevel>)
    requires root == None
    ensures Grown(root)
  {
  }

  lemma {:induction false} GrownOn(root: R.Root<PriceLevel>, p: int, level: PriceLevel)
    requires Grown(root)
    ensures R.Good(root, ORDER) && Grown(R.Insert(root, p, level, ORDER))
  {
    O.InsertHalfFull(root, p, level, ORDER);
    hide R.Good, O.HalfFull, R.Insert;
  }

  lemma {:induction false} Powers()
    ensures O.Pow(ORDER, 1) == 64 && O.Pow(ORDER / 2, 3) == 32768
  {
    assert O.Pow(32, 1) == 32 && O.Pow(32, 2) == 32 * O.Pow(32, 1) && O.Pow(32, 3) == 32 * O.Pow(32, 2);
  }

  lemma {:induction false} ManyTall(root: R.Root<PriceLevel>)
    requires Grown(root) && |W.AllKeys(root)| == MANY
    ensures root.Some? && R.Height(root.value) == 2 && |R.Contents(root)| == MANY
  {
    B.KeysAscend(root, ORDER);
    hide B.KeysOf, B.Strung;
    Powers();
    hide R.Good, O.Pow, O.HalfFull;
    O.GrownHeight(root, ORDER, 2);
  }
}
