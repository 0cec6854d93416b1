/** A run that ends in an index of two leaves, with nothing left in the second: among asks one is sold twice, among bids the
    best is passed over. */
module TwoLeavesExample {
  import opened SortedEntries
  import opened ReferenceBook
  import opened PriorityLists
  import opened OrderLevels
  import opened LevelIndex
  import opened BookSideV1
  import opened AscendingRows
  import opened BookRuns
  import opened TwoLeaves
  import R = BPlusRuns
  import B = BPlusRepair
  import E = BPlusEnds
  import W = Walks

  // ---- an index of two leaves

  /** The leaves while the prices from 2 on come in, in ascending order. */
  ghost predicate Ascends(root: R.Root<PriceLevel>, p: nat) {
    && 2 <= p <= ORDER + 2
    && if p == 2 then root.None?
       else if p < ORDER + 2 then Single(root, ORDER, Range(2, p))
       else Pair(root, ORDER, Range(2, 34), Range(34, ORDER + 2))
  }

  lemma {:induction false} NoneYet(root: R.Root<PriceLevel>)
    requires root == None
    ensures Ascends(root, 2) && forall taker :: Quoted(taker, 2, 2) == []
  {
  }

  lemma {:induction false} AscendsKeys(root: R.Root<PriceLevel>, p: nat)
    requires Ascends(root, p)
    ensures R.Good(root, ORDER) && W.AllKeys(root) == Range(2, p)
  {
    if p == 2 {
      assert W.AllKeys(root) == [];
    } else if p < ORDER + 2 {
      SingleKeys(root, ORDER, Range(2, p));
    } else {
      PairSorted(root, ORDER, Range(2, 34), Range(34, ORDER + 2));
      RangeJoin(2, 34, ORDER + 2);
    }
    hide R.Good, Range;
  }

  lemma {:induction false} AscendsOn(root: R.Root<PriceLevel>, p: nat, level: PriceLevel)
    requires Ascends(root, p) && p < ORDER + 2
    ensures R.Good(root, ORDER) && Ascends(R.Insert(root, p, level, ORDER), p + 1)
  {
    hide R.Good, R.Insert, Range;
    AscendsKeys(root, p);
    RangeJoin(2, p, p + 1);
    RangeOne(p);
    if p == 2 {
      LeafBegins(p, level, ORDER);
    } else {
      LeafTakesLast(root, ORDER, Range(2, p), p, level);
      if p + 1 == ORDER + 2 {
        RangeCut(2, 34, ORDER + 2);
      }
    }
  }

  lemma {:induction false} FirstTaken(root: R.Root<PriceLevel>, level: PriceLevel)
    requires Ascends(root, ORDER + 2)
    ensures R.Good(root, ORDER) && Pair(R.Insert(root, 1, level, ORDER), ORDER, Range(1, 34), Range(34, 66))
  {
    RangeOne(1);
    RangeJoin(1, 2, 34);
    PairTakesFirst(root, ORDER, Range(2, 34), Range(34, 66), 1, level);
    hide Range, R.Good, R.Insert;
  }

  /** Prices from 2 to 65, and then 1: the first leaf holds 33 of them and the second 32. */
  method TwoLeavesOf(taker: Side) returns (side: OrderBookSide)
    ensures Holds(side, taker, Quoted(taker, 1, 66)) && side.emptyLevelCount == 0
    ensures Pair(side.priceTree.tree, ORDER, Range(1, 34), Range(34, 66))
    ensures fresh(side) && fresh(side.priceTree) && fresh(side.priceTree.repr) && fresh(side.Levels()) && fresh(side.Orders())
  {
    hide Holds, Quoted, Range, Enqueue, R.Insert, R.Good, Id, Ascends, Named, HasPrice;
    side := NewSide(taker);
    NoneYet(side.priceTree.tree);
    for p := 2 to 66
      invariant Holds(side, taker, Quoted(taker, 2, p)) && side.emptyLevelCount == 0 && Ascends(side.priceTree.tree, p)
      invariant fresh(side) && fresh(side.priceTree) && fresh(side.priceTree.repr) && fresh(side.Levels()) && fresh(side.Orders())
    {
      ghost var was := side.priceTree.tree;
      QuotedHave(taker, 2, p, p);
      JoinsAbove(taker, 2, p);
      AddAt(side, p, taker, Quoted(taker, 2, p));
      AscendsOn(was, p, side.priceMap[p]);
    }
    ghost var was := side.priceTree.tree;
    QuotedHave(taker, 2, 66, 1);
    JoinsBelow(taker, 1, 66);
    AddAt(side, 1, taker, Quoted(taker, 2, 66));
    FirstTaken(was, side.priceMap[1]);
  }

  // ---- and the second leaf empty

  /** The first price whose level is still in the second leaf when those from 34 on up to p have been cancelled: the sweeps come
      with the 14th and the 25th of them. */
  function Begins(p: nat): nat { if p <= 47 then 34 else if p <= 58 then 48 else 59 }

  ghost function Left(taker: Side, p: nat): (q: seq<Maker>)
    requires 34 <= p <= 66
  {
    if taker == Buy then Ones(1, 34) + Ones(p, 66) else Falls(p, 66) + Falls(1, 34)
  }

  lemma {:induction false} LeftHas(taker: Side, p: nat, x: int)
    requires 34 <= p <= 66
    ensures Named(Left(taker, p)) && (HasPrice(Left(taker, p), x) <==> 1 <= x < 34 || p <= x < 66)
  {
    hide HasPrice, Ones, Falls;
    OnesHave(1, 34, x);
    OnesHave(p, 66, x);
    HasPriceJoin(Ones(1, 34), Ones(p, 66), x);
    FallsHave(1, 34, x);
    FallsHave(p, 66, x);
    HasPriceJoin(Falls(p, 66), Falls(1, 34), x);
  }

  lemma {:induction false} LeftStep(taker: Side, p: nat)
    requires 34 <= p < 66
    ensures Remove(Left(taker, p), Id(p), p) == Left(taker, p + 1)
  {
    hide Id, Ones, Falls, Remove;
    if taker == Buy {
      RemoveBehind(Ones(1, 34), Ones(p, 66), Id(p), p);
      RemovesFirst(p, 66);
    } else {
      RemoveBefore(Falls(p, 66), Falls(1, 34), Id(p), p);
      RemovesLast(p, 66);
    }
  }

  /** The state when those from 34 on up to p have been cancelled. */
  ghost predicate Cancelled(root: R.Root<PriceLevel>, empties: int, p: nat) {
    34 <= p <= 66 && empties == p - Begins(p) && Pair(root, ORDER, Range(1, 34), Range(Begins(p), 66))
  }

  /** The keys in the index while the state is this. */
  lemma {:induction false} CancelledKeys(root: R.Root<PriceLevel>, empties: int, p: nat)
    requires Cancelled(root, empties, p)
    ensures var s := W.AllKeys(root); |s| == 99 - Begins(p) && forall x :: x in s <==> 1 <= x < 34 || Begins(p) <= x < 66
  {
    PairSorted(root, ORDER, Range(1, 34), Range(Begins(p), 66));
    hide Pair, W.AllKeys;
    var s := W.AllKeys(root);
    forall x ensures x in s <==> 1 <= x < 34 || Begins(p) <= x < 66 {
      RangeHas(1, 34, x);
      RangeHas(Begins(p), 66, x);
    }
  }

  lemma {:induction false} GoodPair(root: R.Root<PriceLevel>, a: seq<int>, b: seq<int>)
    requires Pair(root, ORDER, a, b)
    ensures R.Good(root, ORDER)
  {
  }

  /** What a cancellation does to the index: nothing, or a sweep of the second leaf. */
  lemma {:induction false} SweepLeaves(root: R.Root<PriceLevel>, empties: int, p: nat, keys: seq<int>, m: map<int, PriceLevel>)
    requires Cancelled(root, empties, p) && p < 65 && NoDup(keys) && forall x :: x in keys <==> x in W.AllKeys(root)
    requires forall x :: x in m <==> 1 <= x < 34 || p + 1 <= x < 66
    ensures R.Good(root, ORDER) && Pair(E.AfterAll(root, Missing(keys, m), ORDER), ORDER, Range(1, 34), Range(p + 1, 66))
  {
    hide W.AllKeys, R.Good, E.AfterAll, Missing, Range, Pair;
    var gone, b := Missing(keys, m), Range(Begins(p), 66);
    CancelledKeys(root, empties, p);
    MissingMeans(keys, m);
    forall x ensures x in b <==> Begins(p) <= x < 66 {
      RangeHas(Begins(p), 66, x);
    }
    GoodPair(root, Range(1, 34), b);
    var b' := PairDropAll(root, ORDER, Range(1, 34), b, gone, 65);
    PairSorted(E.AfterAll(root, gone, ORDER), ORDER, Range(1, 34), b');
    RangeIs(b', p + 1, 66);
  }

  lemma {:induction false} NextCancelled(root: R.Root<PriceLevel>, empties: int, p: nat, keys: seq<int>, before: map<int, PriceLevel>,
      after: map<int, PriceLevel>, now: int, taker: Side)
    requires Cancelled(root, empties, p) && p < 66 && R.Good(root, ORDER)
    requires NoDup(keys) && Missing(keys, before) == [] && (forall x :: x in keys <==> x in before)
    requires |before| == |W.AllKeys(root)| && forall x :: x in before <==> x in W.AllKeys(root)
    requires if (empties + 1) * 5 > |before| then now == 0 && forall x :: x in after <==> HasPrice(Left(taker, p + 1), x)
             else after == before && now == empties + 1
    ensures Cancelled(E.AfterAll(root, Missing(keys, after), ORDER), now, p + 1)
  {
    hide HasPrice, Left, R.Good, W.AllKeys, Missing, Pair;
    CancelledKeys(root, empties, p);
    if (empties + 1) * 5 > |before| {
      forall x ensures x in after <==> 1 <= x < 34 || p + 1 <= x < 66 {
        LeftHas(taker, p + 1, x);
      }
      SweepLeaves(root, empties, p, keys, after);
    }
  }

  method CancelNext(side: OrderBookSide, p: nat)
    requires 34 <= p < 66 && Holds(side, side.taker, Left(side.taker, p)) && Cancelled(side.priceTree.tree, side.emptyLevelCount, p)
    modifies side, side.priceTree, side.priceTree.repr, side.Levels(), side.Orders()
    ensures Holds(side, side.taker, Left(side.taker, p + 1)) && Cancelled(side.priceTree.tree, side.emptyLevelCount, p + 1)
    ensures side.priceTree.repr == old(side.priceTree.repr)
    ensures side.Levels() <= old(side.Levels()) && side.Orders() <= old(side.Orders())
  {
    hide Holds, Remove, Named, HasPrice, Left, R.Good, W.AllKeys, Missing, E.AfterAll, Cancelled, Id;
    ghost var was, empties, keys, before := side.priceTree.tree, side.emptyLevelCount, side.priceKeys, side.priceMap;
    ghost var taker := side.taker;
    LeftHas(taker, p, p);
    LeftHas(taker, p + 1, p);
    LeftStep(taker, p);
    KeysKnown(side, taker, Left(taker, p));
    Cancel(side, p, taker, Left(taker, p));
    if side.emptyLevelCount == 0 {
      MapIsQueue(side, taker, Left(taker, p + 1));
    }
    NextCancelled(was, empties, p, keys, before, side.priceMap, side.emptyLevelCount, taker);
  }

  method CancelSecondLeaf(side: OrderBookSide)
    requires Holds(side, side.taker, Quoted(side.taker, 1, 66)) && side.emptyLevelCount == 0
    requires Pair(side.priceTree.tree, ORDER, Range(1, 34), Range(34, 66))
    modifies side, side.priceTree, side.priceTree.repr, side.Levels(), side.Orders()
    ensures Holds(side, side.taker, Quoted(side.taker, 1, 34)) && Pair(side.priceTree.tree, ORDER, Range(1, 34), Range(59, 66))
    ensures side.priceTree.repr == old(side.priceTree.repr)
    ensures side.Levels() <= old(side.Levels()) && side.Orders() <= old(side.Orders())
  {
    hide Holds, Pair, Range, Left, Quoted;
    AllAndNone(side.taker);
    for p := 34 to 66
      invariant Holds(side, side.taker, Left(side.taker, p)) && Cancelled(side.priceTree.tree, side.emptyLevelCount, p)
      invariant side.priceTree.repr == old(side.priceTree.repr)
      invariant side.Levels() <= old(side.Levels()) && side.Orders() <= old(side.Orders())
    {
      CancelNext(side, p);
    }
  }

  lemma {:induction false} AllAndNone(taker: Side)
    ensures Left(taker, 34) == Quoted(taker, 1, 66) && Left(taker, 66) == Quoted(taker, 1, 34)
  {
    hide Ones, Falls;
    OnesJoin(1, 34, 66);
    FallsJoin(1, 34, 66);
    OnesOne(66);
    FallsOne(66);
    assert Ones(1, 34) + [] == Ones(1, 34) && [] + Falls(1, 34) == Falls(1, 34);
  }

  // ---- a walk over both leaves

  lemma {:induction false} AtQuoted(taker: Side, lo: nat, hi: nat, p: int)
    requires lo <= hi
    ensures W.At(Quoted(taker, lo, hi), p) == if lo <= p < hi then [One(p)] else []
    decreases hi - lo
  {
    if taker == Buy {
      AtOnes(lo, hi, p);
    } else if lo < hi {
      AtQuoted(taker, lo, hi - 1, p);
    }
  }

  /** There are orders at the prices from lo up to hi, and none at those from mid up. */
  lemma {:induction false} QuotedWait(taker: Side, lo: nat, hi: nat, mid: nat, top: nat)
    requires lo <= hi <= mid <= top
    ensures forall i :: 0 <= i < hi - lo ==> W.At(Quoted(taker, lo, hi), Range(lo, hi)[i]) != [] && lo <= Range(lo, hi)[i] < hi
    ensures forall i :: 0 <= i < top - mid ==> W.At(Quoted(taker, lo, hi), Range(mid, top)[i]) == []
  {
    forall x ensures W.At(Quoted(taker, lo, hi), x) == if lo <= x < hi then [One(x)] else [] {
      AtQuoted(taker, lo, hi, x);
    }
    hide Quoted, W.At;
  }

  lemma {:induction false} TwiceHere(root: R.Root<PriceLevel>)
    requires Pair(root, ORDER, Range(1, 34), Range(59, 66))
    ensures R.Good(root, ORDER)
    ensures W.CourseOf(Buy, root, ORDER, Ones(1, 34), 65, 40) == W.Course(FillsOf(1, 34) + [FillOf(One(33), 1)], true, false)
  {
    hide R.Good, W.CourseOf, W.At, W.Waiting, Fills, FilledQty, Ones, Range, FillsOf, B.KeysOf, Positive, Id;
    OnesServed(1, 34, 65, 40);
    OnesServed(33, 34, 65, 7);
    OnesOne(33);
    FillsOfOne(33);
    OnesWaiting(1, 34);
    AtOnes(1, 34, 33);
    QuotedWait(Buy, 1, 34, 59, 66);
    ServedTwice(root, ORDER, Ones(1, 34), Range(1, 34), Range(59, 66), 65, 40);
  }

  lemma {:induction false} JoinFilled(a: seq<MatchResult>, f: MatchResult)
    ensures FilledQty(a + [f]) == FilledQty(a) + f.quantity
  {
    if a != [] {
      assert (a + [f])[1..] == a[1..] + [f];
      JoinFilled(a[1..], f);
    }
  }

  /** A buyer who wants 40 is given 34 although only 33 rest: the walk empties the second leaf, which then takes the ask at 33
      over from the first, and serves that ask again. */
  method SellsTwice() returns (side: OrderBookSide, results: seq<V1Match>)
    ensures side.Valid() && side.taker == Buy && side.priceTree.order == ORDER && side.Queue() == Ones(1, 34) && Total(side.Queue()) == 33
    ensures PlainAll(results) == FillsOf(1, 34) + [FillOf(One(33), 1)] && FilledQty(PlainAll(results)) == 34
  {
    hide OrderBookSide.Shaped, Ones, Range, Pair, FillsOf, R.Good, W.CourseOf, PlainAll, Fills, FilledQty, Total,
      OrderBookSide.Aligned, OrderBookSide.IsFlat;
    side := TwoLeavesOf(Buy);
    CancelSecondLeaf(side);
    TwiceHere(side.priceTree.tree);
    OnesServed(1, 34, 65, 40);
    JoinFilled(FillsOf(1, 34), FillOf(One(33), 1));
    results := side.Match(65, 40);
  }

  lemma {:induction false} FallsWaiting(lo: nat, mid: nat, hi: nat)
    requires lo <= mid <= hi
    ensures W.WaitingDown(Falls(lo, hi), Range(lo, mid)) == Falls(lo, mid)
    decreases mid - lo
  {
    hide W.At, Range, Falls;
    if lo == mid {
      RangeOne(lo);
      FallsOne(lo);
    } else {
      hide W.WaitingDown;
      AtQuoted(Sell, lo, hi, mid - 1);
      RangeCut(lo, mid - 1, mid);
      OneLower(Falls(lo, hi), lo, mid);
      FallsWaiting(lo, mid - 1, hi);
      FallsJoin(lo, mid - 1, mid);
      FallsOne(mid - 1);
    }
  }

  lemma {:induction false} OneLower(q: seq<Maker>, lo: nat, mid: nat)
    requires lo < mid && W.At(q, mid - 1) == [One(mid - 1)] && Range(lo, mid)[..mid - 1 - lo] == Range(lo, mid - 1)
    ensures W.WaitingDown(q, Range(lo, mid)) == [One(mid - 1)] + W.WaitingDown(q, Range(lo, mid - 1))
  {
    hide Range, W.At;
  }

  lemma {:induction false} BestServed(hi: nat, limit: int)
    requires hi > 1 && hi - 1 >= limit
    ensures Fills(Sell, Some(limit), Falls(1, hi), 1) == [FillOf(One(hi - 1), 1)] && Positive(Falls(1, hi))
  {
    var q := Falls(1, hi);
    assert q[0] == One(hi - 1) && q == [q[0]] + q[1..];
  }

  lemma {:induction false} OverHere(root: R.Root<PriceLevel>)
    requires Pair(root, ORDER, Range(1, 34), Range(59, 66))
    ensures R.Good(root, ORDER)
    ensures W.CourseOf(Sell, root, ORDER, Falls(1, 34), 1, 1) == W.Course([FillOf(One(32), 1)], true, false)
  {
    hide R.Good, W.CourseOf, W.At, W.WaitingDown, Fills, Falls, Range, B.KeysOf, Positive, Id;
    QuotedWait(Sell, 1, 34, 59, 66);
    RangeCut(1, 33, 34);
    FallsWaiting(1, 33, 34);
    BestServed(33, 1);
    BestServed(34, 1);
    PassedOver(root, ORDER, Falls(1, 34), Range(1, 34), Range(59, 66), 1, 1);
  }

  /** A seller of 1 who takes any price is given the bid at 32 although one at 33 rests: the walk empties the second leaf, which
      then takes the bid at 33 over from the first just as the walk leaves it. */
  method PassesOver() returns (side: OrderBookSide, results: seq<V1Match>)
    ensures side.Valid() && side.taker == Sell && side.priceTree.order == ORDER
    ensures side.Queue() == Falls(1, 34) && side.Queue()[0] == One(33) && PlainAll(results) == [FillOf(One(32), 1)]
  {
    hide OrderBookSide.Shaped, Falls, Range, Pair, R.Good, W.CourseOf, PlainAll, Fills, OrderBookSide.Aligned, OrderBookSide.IsFlat;
    side := TwoLeavesOf(Sell);
    CancelSecondLeaf(side);
    OverHere(side.priceTree.tree);
    results := side.Match(1, 1);
  }
}
