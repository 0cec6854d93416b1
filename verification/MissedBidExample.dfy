/** A run that ends in a resting bid the look ahead does not see. */
module MissedBidExample {
  import opened SortedEntries
  import opened ReferenceBook
  import opened OrderLevels
  import opened Ladders
  import opened LevelIndex
  import opened BookSideV1
  import opened AscendingRows
  import opened BookRuns
  import M = BPlusModel
  import S = BPlusShape
  import R = BPlusRuns
  import B = BPlusRepair
  import E = BPlusEnds
  import W = Walks
  import O = BPlusOccupancy

  // ---- many bids

  method ManyBids() returns (side: OrderBookSide)
    ensures Holds(side, Sell, Falls(1, MANY + 1)) && side.emptyLevelCount == 0 && Grown(side.priceTree.tree)
    ensures fresh(side) && fresh(side.priceTree) && fresh(side.priceTree.repr) && fresh(side.Levels()) && fresh(side.Orders())
  {
    hide Holds, Falls, Enqueue, R.Insert, R.Good, Id, Grown, Named, HasPrice;
    side := NewSide(Sell);
    GrownStarts(side.priceTree.tree);
    FallsOne(1);
    for p := 0 to MANY
      invariant Holds(side, Sell, Falls(1, p + 1)) && side.emptyLevelCount == 0 && Grown(side.priceTree.tree)
      invariant fresh(side) && fresh(side.priceTree) && fresh(side.priceTree.repr) && fresh(side.Levels()) && fresh(side.Orders())
    {
      ghost var was := side.priceTree.tree;
      FallsHave(1, p + 1, p + 1);
      FallsStep(1, p + 1);
      AddAt(side, p + 1, Sell, Falls(1, p + 1));
      GrownOn(was, p + 1, side.priceMap[p + 1]);
    }
  }

  // ---- what lies below the last child of the root

  /** Three levels, and the lowest price not below the root's last child. */
  ghost predicate Away(root: R.Root<PriceLevel>) {
    && E.Three(root, ORDER) && root.value.Inner? && |root.value.children| > 0
    && forall e :: e in M.EntriesOf(E.EndChild(root.value, true)) ==> e.0 != 1
  }

  lemma {:induction false} ManyKeys(side: OrderBookSide)
    requires Holds(side, Sell, Falls(1, MANY + 1)) && side.emptyLevelCount == 0
    ensures R.Good(side.priceTree.tree, ORDER) && W.AllKeys(side.priceTree.tree) == Range(1, MANY + 1)
  {
    hide Falls, HasPrice, R.Good, W.AllKeys, Range;
    MapIsQueue(side, Sell, Falls(1, MANY + 1));
    KeysMapped(side);
    hide OrderBookSide.Valid;
    forall x ensures x in W.AllKeys(side.priceTree.tree) <==> 1 <= x < MANY + 1 {
      FallsHave(1, MANY + 1, x);
    }
    RangeIs(W.AllKeys(side.priceTree.tree), 1, MANY + 1);
  }

  /** The first child of the root is not empty, so the last child does not have the first key. */
  lemma {:induction false} FirstIsAway(root: R.Root<PriceLevel>)
    requires Grown(root) && E.Three(root, ORDER) && W.AllKeys(root) == Range(1, MANY + 1)
    ensures Away(root)
  {
    hide R.Good, O.Pow, Range, B.KeysOf, B.Strung, M.EntriesOf, M.Flat;
    var t := root.value;
    R.GoodIsFormed(t, ORDER);
    O.FullHoldsMany(t.children[0], 1, ORDER / 2);
    O.PowGrows(ORDER / 2, 0, 2);
    E.EndParts(t, true);
    B.KeysAscend(root, ORDER);
    FlatHead(t.children);
    var before, end := M.Flat(t.children[..|t.children| - 1]), M.EntriesOf(E.EndChild(t, true));
    forall e | e in end ensures e.0 != 1 {
      var j :| 0 <= j < |end| && end[j] == e;
      assert R.Contents(root)[|before| + j] == e;
      assert W.AllKeys(root)[|before| + j] == e.0;
    }
  }

  lemma {:induction false} FlatHead(ts: seq<M.Tree<PriceLevel>>)
    requires |ts| >= 2
    ensures |M.Flat(ts[..|ts| - 1])| >= |M.EntriesOf(ts[0])|
  {
    assert ts[..|ts| - 1][0] == ts[0];
    hide M.EntriesOf;
  }

  lemma {:induction false} IsThree(root: R.Root<PriceLevel>)
    requires R.Good(root, ORDER) && S.SolidIfLow(root) && E.TidyIfThree(root) && root.Some? && R.Height(root.value) == 2
    ensures E.Three(root, ORDER)
  {
  }

  lemma {:induction false} MadeAway(side: OrderBookSide)
    requires Holds(side, Sell, Falls(1, MANY + 1)) && side.emptyLevelCount == 0 && Grown(side.priceTree.tree)
    ensures Away(side.priceTree.tree)
  {
    hide Falls, R.Good, W.AllKeys, Range, Grown, Away, OrderBookSide.Leads, OrderBookSide.Wanting, OrderBookSide.Indexed,
      AllValid;
    ManyKeys(side);
    ManyTall(side.priceTree.tree);
    side.SolidTree();
    IsThree(side.priceTree.tree);
    FirstIsAway(side.priceTree.tree);
  }

  /** A sweep deletes keys from the index, and so brings nothing in at its end. */
  lemma {:induction false} StaysAway(root: R.Root<PriceLevel>, keys: seq<int>)
    requires Away(root)
    ensures R.Good(root, ORDER) && Away(E.AfterAll(root, keys, ORDER))
  {
    E.ThreeIs(root, ORDER);
    E.NothingMovesInAll(root, keys, ORDER, true);
    hide R.Good, E.Three, M.EntriesOf, E.AfterAll;
  }

  // ---- all but one cancelled

  method CancelDown(side: OrderBookSide)
    requires Holds(side, Sell, Falls(1, MANY + 1)) && Away(side.priceTree.tree)
    modifies side, side.priceTree, side.priceTree.repr, side.Levels(), side.Orders()
    ensures Holds(side, Sell, Falls(1, 2)) && Away(side.priceTree.tree) && side.priceTree.repr == old(side.priceTree.repr)
    ensures side.Levels() <= old(side.Levels()) && side.Orders() <= old(side.Orders())
  {
    hide Holds, Falls, Away, Remove, Named, HasPrice, R.Good, E.AfterAll, Missing, Id;
    for n := MANY downto 1
      invariant Holds(side, Sell, Falls(1, n + 1)) && Away(side.priceTree.tree)
      invariant side.priceTree.repr == old(side.priceTree.repr)
      invariant side.Levels() <= old(side.Levels()) && side.Orders() <= old(side.Orders())
    {
      ghost var was, keys := side.priceTree.tree, side.priceKeys;
      FallsHave(1, n + 2, n + 1);
      FallsStep(1, n + 1);
      Cancel(side, n + 1, Sell, Falls(1, n + 2));
      StaysAway(was, Missing(keys, side.priceMap));
    }
  }

  /** A level of the index that no order names is empty. */
  lemma {:induction false} EntryIsEmpty(side: OrderBookSide, i: nat)
    requires side.Valid()
    requires var es := R.Contents(side.priceTree.tree); i < |es| && forall n :: n in NodesOf(side.ladder) ==> n.price != es[i].0
    ensures R.Contents(side.priceTree.tree)[i].1.nodes == []
  {
    hide R.Good, ToMap, R.Contents, NodesOf, AllValid, S.SolidIfLow, E.TidyIfThree, OrderBookSide.Leads, OrderBookSide.Wanting;
    side.SolidTree();
    var es := R.Contents(side.priceTree.tree);
    MapDomain(es);
    side.MapKnows(es[i].0);
    if es[i].1.nodes != [] {
      side.NodePrice(es[i].1);
      assert false;
    }
  }

  lemma {:induction false} EndLevel(side: OrderBookSide, j: nat)
    requires Holds(side, Sell, Falls(1, 2)) && side.priceTree.tree.Some? && side.priceTree.tree.value.Inner?
    requires var t := side.priceTree.tree.value;
             |t.children| > 0 && var end := M.EntriesOf(E.EndChild(t, true)); j < |end| && end[j].0 != 1
    ensures M.EntriesOf(E.EndChild(side.priceTree.tree.value, true))[j].1.nodes == []
  {
    hide OrderBookSide.Valid, Falls, HasPrice, M.EntriesOf, M.Flat, S.Leaves, S.AllLeaves, NodesOf;
    var t := side.priceTree.tree.value;
    E.EndParts(t, true);
    var k := |M.Flat(t.children[..|t.children| - 1])| + j;
    var key := R.Contents(side.priceTree.tree)[k].0;
    FallsHave(1, 2, key);
    NoPriceLeft(side, Sell, Falls(1, 2), key);
    EntryIsEmpty(side, k);
  }

  /** What is left under the root's last child holds no order. */
  lemma {:induction false} LastIsEmpty(side: OrderBookSide)
    requires Holds(side, Sell, Falls(1, 2)) && Away(side.priceTree.tree)
    ensures side.Blind()
  {
    hide OrderBookSide.Shaped, OrderBookSide.Leads, OrderBookSide.Wanting, R.Good, M.EntriesOf, OrderBookSide.Blind,
      HasPrice, Falls;
    E.ThreeIs(side.priceTree.tree, ORDER);
    var t := side.priceTree.tree.value;
    side.BlindIff();
    var end := M.EntriesOf(E.EndChild(t, true));
    forall l | l in Vals(end) ensures l.nodes == [] {
      var j :| 0 <= j < |end| && Vals(end)[j] == l;
      assert end[j] in end;
      EndLevel(side, j);
    }
  }

  /** A bid rests, yet the look ahead sees none: the run leaves three levels, and nothing but empty levels below the root's
      last child. */
  method MissesBid() returns (side: OrderBookSide, r: Option<int>)
    ensures side.Valid() && side.taker == Sell && side.priceTree.order == ORDER && side.Queue() == [One(1)] && r == None
  {
    hide Falls, Grown, Away, OrderBookSide.Shaped, OrderBookSide.Leads, OrderBookSide.Wanting, OrderBookSide.Blind,
      OrderBookSide.Undisturbed, OrderBookSide.LookedAt, OrderBookSide.IsFlat;
    side := ManyBids();
    MadeAway(side);
    CancelDown(side);
    LastIsEmpty(side);
    assert Falls(1, 2)[0] == One(1);
    r := side.BestPrice();
  }
}
