/** A run that ends in a walk which never ends. */
module LostWalkExample {
  import opened SortedEntries
  import opened ReferenceBook
  import opened PriorityLists
  import opened OrderLevels
  import opened Ladders
  import opened LevelIndex
  import opened BookSideV1
  import opened AscendingRows
  import opened BookRuns
  import R = BPlusRuns
  import M = BPlusModel
  import N = BPlusNodes
  import T = BPlusTree
  import B = BPlusRepair
  import W = Walks
  import O = BPlusOccupancy
  import L = NeverEnds

  // ---- many asks, in leaves of half an order each

  ghost predicate InRows(root: R.Root<PriceLevel>, p: nat) {
    p >= 1 && Grown(root) && B.KeysOf(root) == Rows(1, p, ORDER) && Filled(B.KeysOf(root))
  }

  lemma {:induction false} InRowsOn(root: R.Root<PriceLevel>, p: nat, level: PriceLevel)
    requires InRows(root, p) && W.AllKeys(root) == Range(1, p)
    ensures R.Good(root, ORDER) && InRows(R.Insert(root, p, level, ORDER), p + 1)
  {
    hide R.Good, R.Insert, Grow, Range, Rows, O.HalfFull, B.KeysOf, B.Strung;
    GrownOn(root, p, level);
    B.KeysAscend(root, ORDER);
    forall i | 0 <= i < |R.Contents(root)| ensures R.Contents(root)[i].0 < p {
      assert W.AllKeys(root)[i] == R.Contents(root)[i].0;
    }
    AscendingInsert(root, p, level, ORDER);
    RowsGrow(1, p, ORDER);
  }

  lemma {:induction false} InRowsStarts(root: R.Root<PriceLevel>)
    requires root == None
    ensures InRows(root, 1) && Ones(1, 1) == []
  {
  }

  /** The keys of the index are the prices. */
  lemma {:induction false} PricesAreKeys(side: OrderBookSide, p: nat)
    requires p >= 1 && Holds(side, Buy, Ones(1, p)) && side.emptyLevelCount == 0
    ensures R.Good(side.priceTree.tree, ORDER) && W.AllKeys(side.priceTree.tree) == Range(1, p)
  {
    hide Ones, HasPrice, R.Good, W.AllKeys, Range;
    MapIsQueue(side, Buy, Ones(1, p));
    KeysMapped(side);
    hide OrderBookSide.Valid;
    var s := W.AllKeys(side.priceTree.tree);
    forall x ensures x in s <==> 1 <= x < p {
      OnesHave(1, p, x);
    }
    if p > 1 {
      RangeIs(s, 1, p);
    } else {
      forall x ensures x !in side.priceMap {
        OnesHave(1, 1, x);
      }
      assert side.priceMap.Keys == {};
      RangeOne(1);
    }
  }

  method ManyAsks() returns (side: OrderBookSide)
    ensures Holds(side, Buy, Ones(1, MANY + 1)) && side.emptyLevelCount == 0 && InRows(side.priceTree.tree, MANY + 1)
    ensures fresh(side) && fresh(side.priceTree) && fresh(side.priceTree.repr) && fresh(side.Levels()) && fresh(side.Orders())
  {
    hide Holds, Ones, Range, Enqueue, R.Insert, R.Good, Id, InRows, Named, HasPrice;
    side := NewSide(Buy);
    InRowsStarts(side.priceTree.tree);
    for p := 1 to MANY + 1
      invariant Holds(side, Buy, Ones(1, p)) && side.emptyLevelCount == 0 && InRows(side.priceTree.tree, p)
      invariant fresh(side) && fresh(side.priceTree) && fresh(side.priceTree.repr) && fresh(side.Levels()) && fresh(side.Orders())
    {
      ghost var was := side.priceTree.tree;
      PricesAreKeys(side, p);
      OnesHave(1, p, p);
      JoinsBehind(1, p);
      AddAt(side, p, Buy, Ones(1, p));
      InRowsOn(was, p, side.priceMap[p]);
    }
  }

  // ---- two levels of the second leaf run empty

  /** The asks from 33 on up to b are gone. */
  ghost function Gap(b: nat): seq<Maker>
    requires 33 <= b <= 35
  {
    Ones(1, 33) + Ones(b, MANY + 1)
  }

  lemma {:induction false} GapHas(b: nat, x: int)
    requires 33 <= b <= 35
    ensures Named(Gap(b)) && (HasPrice(Gap(b), x) <==> 1 <= x < 33 || b <= x <= MANY)
    ensures b < 35 ==> Remove(Gap(b), Id(b), b) == Gap(b + 1)
  {
    hide Ones, Id, HasPrice, Remove;
    OnesHave(1, 33, x);
    OnesHave(b, MANY + 1, x);
    HasPriceJoin(Ones(1, 33), Ones(b, MANY + 1), x);
    if b < 35 {
      RemoveBehind(Ones(1, 33), Ones(b, MANY + 1), Id(b), b);
      RemovesFirst(b, MANY + 1);
    }
  }

  lemma {:induction false} AtGap(x: int)
    ensures W.At(Gap(35), x) == if 1 <= x < 33 || 35 <= x <= MANY then [One(x)] else []
  {
    hide Ones, W.At;
    AtOnes(1, 33, x);
    AtOnes(35, MANY + 1, x);
    W.AtAppend(Ones(1, 33), Ones(35, MANY + 1), x);
  }

  ghost predicate Gapped(side: OrderBookSide, b: nat)
    reads side, side.priceTree, side.priceTree.repr, side.Levels(), side.Orders()
  {
    && 33 <= b <= 35 && Holds(side, Buy, Gap(b)) && side.emptyLevelCount == b - 33 && |side.priceMap| == MANY
    && InRows(side.priceTree.tree, MANY + 1)
  }

  /** Two empty levels are too few for a sweep. */
  method CancelAt(side: OrderBookSide, b: nat)
    requires b < 35 && Gapped(side, b)
    modifies side, side.priceTree, side.priceTree.repr, side.Levels(), side.Orders()
    ensures Gapped(side, b + 1) && side.priceTree.repr == old(side.priceTree.repr)
    ensures side.Levels() <= old(side.Levels()) && side.Orders() <= old(side.Orders())
  {
    hide Holds, Gap, Remove, Named, HasPrice, R.Good, W.AllKeys, Missing, Id, InRows;
    GapHas(b, b);
    GapHas(b + 1, b);
    KeysKnown(side, Buy, Gap(b));
    Cancel(side, b, Buy, Gap(b));
  }

  lemma {:induction false} AllAreGapped(side: OrderBookSide)
    requires Holds(side, Buy, Ones(1, MANY + 1)) && side.emptyLevelCount == 0 && InRows(side.priceTree.tree, MANY + 1)
    ensures Gapped(side, 33)
  {
    hide Ones, Range, InRows, R.Good, W.AllKeys;
    OnesJoin(1, 33, MANY + 1);
    PricesAreKeys(side, MANY + 1);
    KeysKnown(side, Buy, Ones(1, MANY + 1));
    hide Holds;
  }

  // ---- the walk is lost

  lemma {:induction false} RowsBegin(lo: nat, hi: nat, order: nat)
    requires order >= 2 && order % 2 == 0 && lo + 3 * order <= hi
    ensures var ks, m := Rows(lo, hi, order), order / 2;
            |ks| > 2 && ks[0] == Range(lo, lo + m) && ks[1] == Range(lo + m, lo + 2 * m) && |ks[2]| == m
  {
    var m := order / 2;
    assert Rows(lo, hi, order) == [Range(lo, lo + m)] + Rows(lo + m, hi, order);
    assert Rows(lo + m, hi, order) == [Range(lo + m, lo + 2 * m)] + Rows(lo + 2 * m, hi, order);
    assert Rows(lo + 2 * m, hi, order) == [Range(lo + 2 * m, lo + 3 * m)] + Rows(lo + 3 * m, hi, order);
    hide Range;
  }

  lemma {:induction false} LostHere(root: R.Root<PriceLevel>)
    requires InRows(root, MANY + 1) && |W.AllKeys(root)| == MANY
    ensures R.Good(root, ORDER) && !W.CourseOf(Buy, root, ORDER, Gap(35), MANY, 40).ends
  {
    hide R.Good, O.HalfFull, B.KeysOf, B.Strung, Ones, Range, Rows, W.At, W.Waiting, W.CourseOf, Fills, FilledQty, Positive,
      Gap, FillsOf, Id;
    ManyTall(root);
    RowsBegin(1, MANY + 1, ORDER);
    var q, a := Gap(35), Range(1, 33);
    forall x ensures W.At(q, x) == if 1 <= x < 33 || 35 <= x <= MANY then [One(x)] else [] {
      AtGap(x);
    }
    OneWaiting(q, 1, 33);
    OnesServed(1, 33, MANY, 40);
    GapWants();
    L.LostInSecond(root, ORDER, q, MANY, 40);
  }

  lemma {:induction false} GapWants()
    ensures Positive(Gap(35))
  {
    hide Ones;
  }

  // ---- and stays where it is

  /** The walk stands at an empty level of a leaf that is not below the root any more. */
  ghost predicate Stranded(side: OrderBookSide, leaf: N.Node<PriceLevel>, keyIdx: nat)
    reads side, side.priceTree, side.priceTree.repr, leaf, set l | l in leaf.values
  {
    && side.priceTree.Valid() && leaf in side.priceTree.repr && leaf !in side.priceTree.Placed()
    && keyIdx < |leaf.keys| == |leaf.values| && leaf.values[keyIdx].IsEmpty()
  }

  /** One turn of the walk's loop: the level is empty, so it is dropped, and the walk looks at the same place again. */
  method Turn(side: OrderBookSide, leaf: N.Node<PriceLevel>, keyIdx: nat)
    requires Stranded(side, leaf, keyIdx)
    modifies side`priceMap, side`priceKeys, side`emptyLevelCount, side.priceTree, side.priceTree.repr
    ensures Stranded(side, leaf, keyIdx) && leaf.values == old(leaf.values) && leaf.next == old(leaf.next)
    ensures side.emptyLevelCount == old(side.emptyLevelCount) - 1 && side.priceTree.repr == old(side.priceTree.repr)
  {
    hide T.BPlusTree.Valid, T.BPlusTree.Entries, T.BPlusTree.LosesFrom, R.After, T.BPlusTree.Placed;
    var level := leaf.values[keyIdx];
    if level.IsEmpty() {
      var dropped := side.priceTree.Delete(level.price);
      side.priceMap, side.priceKeys := side.priceMap - {level.price}, DropKey(side.priceKeys, level.price);
      side.emptyLevelCount := side.emptyLevelCount - 1;
    }
  }

  /** After any number of turns it is still there, and the count of empty levels keeps falling. */
  method Turns(side: OrderBookSide, leaf: N.Node<PriceLevel>, keyIdx: nat, n: nat)
    requires Stranded(side, leaf, keyIdx)
    modifies side`priceMap, side`priceKeys, side`emptyLevelCount, side.priceTree, side.priceTree.repr
    ensures Stranded(side, leaf, keyIdx) && leaf.values == old(leaf.values) && side.emptyLevelCount == old(side.emptyLevelCount) - n
  {
    hide Stranded;
    for i := 0 to n
      invariant Stranded(side, leaf, keyIdx) && leaf.values == old(leaf.values) && side.emptyLevelCount == old(side.emptyLevelCount) - i
      invariant side.priceTree.repr == old(side.priceTree.repr)
    {
      Turn(side, leaf, keyIdx);
    }
  }

  // ---- how it comes there

  /** The index has second a leaf whose first two levels are empty, and which goes when the first of them is dropped. */
  lemma {:induction false} SecondLeaf(side: OrderBookSide)
    requires Gapped(side, 35)
    ensures side.priceTree.Valid() && side.priceTree.order == ORDER && R.Good(side.priceTree.tree, ORDER)
    ensures B.PlaceOf(side.priceTree.tree, 33, ORDER) == 1 && B.FixOf(side.priceTree.tree, 33, ORDER) == B.IntoLeft
    ensures var c := side.priceTree.LeafChain();
            && |c| > 2 && c[0].next == c[1] && (forall n :: n in c ==> n in side.priceTree.repr) && c[1].leaf
            && (forall i, j :: 0 <= i < j < |c| ==> c[i] != c[j])
            && |c[1].keys| == |c[1].values| > 2 && c[1].keys[0] == 33 && c[1].keys[1] == 34
            && EmptyAt(side, c[1], 0) && EmptyAt(side, c[1], 1)
  {
    hide Ones, Range, Rows, R.Good, B.KeysOf, B.Strung, O.HalfFull, T.BPlusTree.Holds, Gap, AllValid, OrderBookSide.Leads,
      OrderBookSide.Wanting, T.BPlusTree.Entries, IndexedBy, B.FixOf, B.PlaceOf, HasPrice, T.BPlusTree.LeafChain;
    var t := side.priceTree.tree;
    KeysKnown(side, Buy, Gap(35));
    ManyTall(t);
    RowsBegin(1, MANY + 1, ORDER);
    L.SecondMerges(t, ORDER, 0);
    W.KeyGoes(t, ORDER, 1, 0);
    side.priceTree.ChainKeys();
    LevelGone(side, side.priceTree.LeafChain()[1], 0);
    LevelGone(side, side.priceTree.LeafChain()[1], 1);
  }

  ghost predicate EmptyAt(side: OrderBookSide, leaf: N.Node<PriceLevel>, j: nat)
    reads side, leaf, set l | l in leaf.values
  {
    && j < |leaf.keys| == |leaf.values|
    && var l := leaf.values[j]; var i := PlaceOf(side.taker, side.ladder, l.price);
       i < |side.ladder| && side.ladder[i] == l && l.price == leaf.keys[j] && l.nodes == [] && l.IsEmpty()
  }

  lemma {:induction false} LevelGone(side: OrderBookSide, leaf: N.Node<PriceLevel>, j: nat)
    requires Holds(side, Buy, Gap(35)) && side.priceTree.EntryIn(leaf, j) && 33 <= leaf.keys[j] < 35
    ensures EmptyAt(side, leaf, j)
  {
    hide Gap, HasPrice, AllValid, OrderBookSide.Leads, OrderBookSide.Wanting, T.BPlusTree.Valid, IndexedBy, NodesOf;
    var key := leaf.keys[j];
    GapHas(35, key);
    NoPriceLeft(side, Buy, Gap(35), key);
    side.MapKnows(key);
    var l := leaf.values[j];
    if l.nodes != [] {
      side.NodePrice(l);
      assert false;
    }
    side.EmptyIn(l);
    side.PlaceIn(l);
  }

  lemma {:induction false} OneLess<T>(c: seq<T>)
    requires |c| > 1 && forall i, j :: 0 <= i < j < |c| ==> c[i] != c[j]
    ensures c[1] !in M.Without(c, 1)
  {
  }

  lemma {:induction false} FirstGone<T>(s: seq<T>)
    requires |s| > 1
    ensures |M.Without(s, 0)| == |s| - 1 && M.Without(s, 0)[0] == s[1]
  {
  }

  lemma {:induction false} LowestFirst(keys: seq<int>)
    requires keys != []
    ensures M.LowerBound(keys, keys[0]) == 0
  {
  }

  method SecondOf(side: OrderBookSide) returns (leaf: N.Node<PriceLevel>)
    requires Gapped(side, 35)
    ensures Gapped(side, 35) && |side.priceTree.LeafChain()| > 2 && leaf == side.priceTree.LeafChain()[1]
  {
    hide OrderBookSide.Indexed, AllValid, NodesOf, Makers, CountEmpty, OrderBookSide.Leads, OrderBookSide.Wanting,
      T.BPlusTree.Valid, T.BPlusTree.Entries, T.BPlusTree.LeafChain, InRows, Gap;
    SecondLeaf(side);
    var first := side.FirstLeaf();
    SecondLeaf(side);
    leaf := first.next;
  }

  lemma {:induction false} GappedIs(side: OrderBookSide)
    requires Gapped(side, 35)
    ensures side.Valid() && side.emptyLevelCount == 2
  {
    hide OrderBookSide.Valid;
  }

  /** What the walk does when it comes to the second leaf. */
  method DropsFirst(side: OrderBookSide) returns (leaf: N.Node<PriceLevel>)
    requires Gapped(side, 35)
    modifies side`priceMap, side`priceKeys, side`ladder, side`emptyLevelCount, side.priceTree, side.priceTree.repr
    ensures Stranded(side, leaf, 0) && side.emptyLevelCount == 1 && side.priceTree.repr == old(side.priceTree.repr)
  {
    hide OrderBookSide.Valid, Gapped, R.Good, B.FixOf, B.PlaceOf, T.BPlusTree.Valid, T.BPlusTree.LeafChain,
      T.BPlusTree.Placed, R.After, OrderBookSide.IsFlat;
    hide M.Without;
    leaf := SecondOf(side);
    SecondLeaf(side);
    GappedIs(side);
    ghost var c := side.priceTree.LeafChain();
    var level := leaf.values[0];
    FirstGone(leaf.keys);
    FirstGone(leaf.values);
    LowestFirst(leaf.keys);
    OneLess(c);
    ghost var i := PlaceOf(side.taker, side.ladder, level.price);
    side.CleanupLevel(level, i);
    TreeStands(side);
    side.priceTree.OutOfChain(leaf);
  }

  lemma {:induction false} TreeStands(side: OrderBookSide)
    requires side.Valid()
    ensures side.priceTree.Valid()
  {
    side.TreeIsValid();
  }

  /** Asks in leaves of half an order, with the first two levels of the second leaf empty: a buyer who wants more than the
      first leaf has is never done. */
  method TwoCancelled() returns (side: OrderBookSide)
    ensures Gapped(side, 35) && side.Valid() && !side.Course(MANY, 40).ends
    ensures fresh(side) && fresh(side.priceTree) && fresh(side.priceTree.repr) && fresh(side.Levels()) && fresh(side.Orders())
  {
    hide Gapped, Holds, InRows, Ones, OrderBookSide.Course;
    side := ManyAsks();
    AllAreGapped(side);
    CancelAt(side, 33);
    CancelAt(side, 34);
    GappedIs(side);
    NotDone(side);
  }

  lemma {:induction false} NotDone(side: OrderBookSide)
    requires Gapped(side, 35) && side.Valid()
    ensures !side.Course(MANY, 40).ends
  {
    hide OrderBookSide.Shaped, OrderBookSide.Leads, OrderBookSide.Wanting, InRows, Gap, R.Good, W.CourseOf, W.AllKeys;
    KeysKnown(side, Buy, Gap(35));
    LostHere(side.priceTree.tree);
  }

  /** The walk comes to the second leaf, and after n more turns still stands there, with the count of empty levels n below
      what it was. */
  method NeverDone(n: nat) returns (side: OrderBookSide, leaf: N.Node<PriceLevel>)
    ensures Stranded(side, leaf, 0) && side.emptyLevelCount == 1 - n
  {
    hide Gapped, Stranded;
    side := TwoCancelled();
    leaf := DropsFirst(side);
    Turns(side, leaf, 0, n);
  }
}
