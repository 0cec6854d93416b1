/** One side of the first engine's order book: an order index, a price index and a B+ tree over the same levels. */
module BookSideV1 {
  import opened SortedEntries
  import opened ReferenceBook
  import opened PriorityLists
  import opened OrderLevels
  import opened Ladders
  import opened LevelIndex
  import T = BPlusTree
  import N = BPlusNodes
  import M = BPlusModel
  import S = BPlusShape
  import R = BPlusRuns
  import B = BPlusRepair
  import C = BPlusRoom
  import E = BPlusEnds
  import W = Walks

  /** Ten decimals in an order's price, six in an index key. */
  const GRID := 10000

  /** The index key of a price, rounded half up. */
  function PriceToBigint(decimalPrice: int): int { (decimalPrice + GRID / 2) / GRID }

  datatype V1Match = V1Match(makerOrderId: string, makerUserId: string, makerRemainingBefore: int, price: int, quantity: int,
                             makerNode: OrderNode)

  /** A match as the reference book tells it: at the maker's index key. */
  ghost function Plain(m: V1Match): MatchResult {
    MatchResult(m.makerOrderId, m.makerUserId, m.makerNode.price, m.quantity, m.makerRemainingBefore)
  }

  ghost function PlainAll(ms: seq<V1Match>): (fs: seq<MatchResult>)
    ensures |fs| == |ms| && forall i :: 0 <= i < |ms| ==> fs[i] == Plain(ms[i])
  {
    if ms == [] then [] else [Plain(ms[0])] + PlainAll(ms[1..])
  }

  /** A walk upwards stands on a leaf of the index, off it on a leaf that has been merged away, or past a leaf. */
  datatype Stand = On | Off | Past

  class OrderBookSide {
    /** Buy for the asks, Sell for the bids: the side of the orders matched here. */
    const taker: Side
    var orderMap: map<string, OrderNode>
    var priceMap: map<int, PriceLevel>
    /** The keys of the price map in order of insertion. */
    var priceKeys: seq<int>
    const priceTree: T.BPlusTree<PriceLevel>
    var emptyLevelCount: int
    /** The levels, best first. */
    ghost var ladder: seq<PriceLevel>

    ghost function Levels(): set<PriceLevel>
      reads this`ladder
    {
      set l | l in ladder
    }

    ghost function Orders(): set<OrderNode>
      reads this`ladder, Levels()`nodes
    {
      set l, n | l in ladder && n in l.nodes :: n
    }

    /** Price map and ladder hold the same levels under their prices. */
    ghost predicate Indexed()
      reads this`ladder, this`priceMap, this`priceKeys
    {
      IndexedBy(taker, ladder, priceMap, priceKeys)
    }

    ghost predicate TreeOk()
      reads this`priceMap, priceTree, priceTree.repr
    {
      priceTree.Valid() && priceTree.Entries() == priceMap
    }

    /** The order map leads to exactly the orders in the levels. */
    static ghost predicate Leads(orderMap: map<string, OrderNode>, ns: seq<OrderNode>) {
      && (forall n :: n in ns ==> n.orderId in orderMap && orderMap[n.orderId] == n)
      && (forall id :: id in orderMap ==> orderMap[id].orderId == id && orderMap[id] in ns)
    }

    /** Every order still wants something, and is filed under the key of its own price. */
    static ghost predicate Wanting(ns: seq<OrderNode>)
      reads (set n | n in ns)`remainingQty
    {
      forall n :: n in ns ==> n.remainingQty > 0 && n.price == PriceToBigint(n.decimalPrice)
    }

    /** The indexes and the lists agree. */
    ghost predicate Shaped()
      reads this`ladder, this`priceMap, this`priceKeys, priceTree, priceTree.repr, Levels(), Orders()
    {
      Indexed() && TreeOk() && AllValid(ladder) && forall n :: n in NodesOf(ladder) ==> n in Orders()
    }

    ghost predicate Valid()
      reads this, priceTree, priceTree.repr, Levels(), Orders()
    {
      Shaped() && emptyLevelCount == CountEmpty(ladder) && Leads(orderMap, NodesOf(ladder)) && Wanting(NodesOf(ladder))
    }

    /** The resting orders, best price first and oldest first. */
    ghost function Queue(): seq<Maker>
      requires forall n :: n in NodesOf(ladder) ==> n in Orders()
      reads this`ladder, Levels()`nodes, Orders()`remainingQty
    {
      Makers(NodesOf(ladder))
    }

    constructor (taker: Side, order: int)
      requires order >= 2
      ensures Valid() && Queue() == [] && this.taker == taker && ladder == []
      ensures orderMap == map[] && priceMap == map[] && IsFlat() && priceTree.tree == None && priceTree.order == order
      ensures fresh(priceTree) && fresh(priceTree.repr)
    {
      this.taker, orderMap, priceMap, priceKeys, emptyLevelCount, ladder := taker, map[], map[], [], 0, [];
      priceTree := new T.BPlusTree(order);
    }

    // ---- adding

    method Add(orderId: string, userId: string, decimalPrice: int, qty: int)
      requires Valid() && qty > 0 && orderId !in orderMap
      modifies this, priceTree, priceTree.repr, Levels(), Orders()
      ensures Valid() && Queue() == Enqueue(taker, old(Queue()), Maker(orderId, userId, PriceToBigint(decimalPrice), qty))
      ensures orderMap.Keys == old(orderMap.Keys) + {orderId}
      ensures orderMap[orderId].decimalPrice == decimalPrice && forall id :: id in old(orderMap) ==> orderMap[id] == old(orderMap)[id]
      ensures (forall l :: l in Levels() ==> l in old(Levels()) || fresh(l)) && (forall n :: n in Orders() ==> n in old(Orders()) || fresh(n))
      ensures fresh(priceTree.repr - old(priceTree.repr))
      ensures Opens(PriceToBigint(decimalPrice)) && WidensFrom(old(priceMap.Keys), old(IsFlat()))
    {
      hide Valid, Awaits, Makers, NodesOf, Enqueue, PriceToBigint, Orders, R.Insert;
      IndexApart();
      var key := PriceToBigint(decimalPrice);
      var node := NewNode(orderId, userId, key, decimalPrice, qty);
      var level := LevelFor(key);
      Place(node, level);
      NewKeyHasOrder(orderId, key);
    }

    /** Levels have come in only for orders that rest there, and an index of one leaf has stayed one while it has fewer keys
        than its order. */
    ghost predicate WidensFrom(keys: set<int>, flat: bool)
      reads this`ladder, Levels()`nodes, this`priceMap, priceTree
    {
      && (forall p :: p in priceMap ==> p in keys || exists n :: n in NodesOf(ladder) && n.price == p)
      && (flat && |priceMap| < priceTree.order ==> IsFlat())
    }

    lemma {:induction false} Wider(keys: set<int>, flat: bool, keys0: set<int>, flat0: bool)
      requires WidensFrom(keys, flat) && keys <= keys0 && (flat0 ==> flat)
      ensures WidensFrom(keys0, flat0)
    {
    }

    lemma {:induction false} AsWide()
      ensures WidensFrom(priceMap.Keys, IsFlat())
    {
    }

    lemma {:induction false} NewKeyHasOrder(id: string, key: int)
      requires Valid() && id in orderMap && key == PriceToBigint(orderMap[id].decimalPrice)
      ensures exists n :: n in NodesOf(ladder) && n.price == key
    {
      assert orderMap[id] in NodesOf(ladder);
      hide Shaped, NodesOf, PriceToBigint;
    }

    /** The index has a level at this price, and is otherwise as it was. */
    twostate predicate Opens(key: int)
      requires old(priceTree.Valid())
      reads this`priceMap, this`emptyLevelCount, priceTree
    {
      && key in priceMap
      && if key in old(priceMap) then priceMap == old(priceMap) && priceTree.tree == old(priceTree.tree)
         else && priceMap == old(priceMap)[key := priceMap[key]] && emptyLevelCount == old(emptyLevelCount)
              && priceTree.tree == R.Insert(old(priceTree.tree), key, priceMap[key], priceTree.order)
    }

    method NewNode(orderId: string, userId: string, key: int, decimalPrice: int, qty: int) returns (node: OrderNode)
      requires Valid()
      ensures node.orderId == orderId && node.userId == userId && node.price == key && node.decimalPrice == decimalPrice
      ensures node.remainingQty == qty && fresh(node) && node !in Orders()
      ensures Valid() && NodesOf(ladder) == old(NodesOf(ladder)) && Queue() == old(Queue()) && Levels() == old(Levels()) && Orders() == old(Orders())
    {
      hide Indexed, AllValid, Makers, NodesOf, CountEmpty, T.BPlusTree.Valid, T.BPlusTree.Entries, Leads, Wanting;
      node := new OrderNode(orderId, userId, key, decimalPrice, qty);
    }

    /** The level of a price, opened if there is none, and no longer counted if it was empty. */
    method LevelFor(key: int) returns (level: PriceLevel)
      requires Valid()
      modifies this`priceMap, this`priceKeys, this`ladder, this`emptyLevelCount, priceTree, priceTree.repr
      ensures Awaits(level) && level.price == key && NodesOf(ladder) == old(NodesOf(ladder)) && Queue() == old(Queue())
      ensures forall n :: n in level.nodes ==> n in Orders()
      ensures (fresh(level) || level in old(Levels())) && (forall l :: l in Levels() ==> l in old(Levels()) || fresh(l))
      ensures Orders() == old(Orders()) && fresh(priceTree.repr - old(priceTree.repr)) && Opens(key)
      ensures old(IsFlat()) && |priceMap| < priceTree.order ==> IsFlat()
    {
      hide Valid, Awaits, NodesOf, Makers;
      if key !in priceMap {
        level := NewLevel(key);
      } else {
        level := FoundLevel(key);
      }
    }

    method NewLevel(key: int) returns (level: PriceLevel)
      requires Valid() && key !in priceMap
      modifies this`priceMap, this`priceKeys, this`ladder, priceTree, priceTree.repr
      ensures Awaits(level) && level.price == key && NodesOf(ladder) == old(NodesOf(ladder)) && Queue() == old(Queue()) && fresh(level)
      ensures level.nodes == []
      ensures forall l :: l in ladder ==> l in old(ladder) || l == level
      ensures Orders() == old(Orders()) && fresh(priceTree.repr - old(priceTree.repr)) && Opens(key)
      ensures old(IsFlat()) && |priceMap| < priceTree.order ==> IsFlat()
    {
      hide IsFlat, Makers, NodesOf, CountEmpty, T.BPlusTree.Valid, T.BPlusTree.Entries, Leads, Wanting, Linked, IndexedBy,
        AllValid;
      ghost var was, i := ladder, PlaceOf(taker, ladder, key);
      level := OpenLevel(key);
      Opened(was, i, level);
    }

    method FoundLevel(key: int) returns (level: PriceLevel)
      requires Valid() && key in priceMap
      modifies this`emptyLevelCount
      ensures Awaits(level) && level.price == key && level in ladder && NodesOf(ladder) == old(NodesOf(ladder)) && Queue() == old(Queue())
    {
      hide Makers, NodesOf, CountEmpty, T.BPlusTree.Valid, T.BPlusTree.Entries, Leads, Wanting, Linked;
      level := priceMap[key];
      EmptyMeans(level);
      if level.IsEmpty() {
        emptyLevelCount := emptyLevelCount - 1;
      }
    }

    static lemma {:induction false} EmptyMeans(level: PriceLevel)
      requires level.Valid()
      ensures level.IsEmpty() <==> level.nodes == []
    {
    }

    /** An empty level among the others. */
    static lemma {:induction false} Opened(was: seq<PriceLevel>, i: nat, level: PriceLevel)
      requires i <= |was| && level.nodes == []
      ensures var now := was[..i] + [level] + was[i..];
              && NodesOf(now) == NodesOf(was) && CountEmpty(now) == CountEmpty(was) + 1
              && (AllValid(was) && level.Valid() ==> AllValid(now))
              && (forall l :: l in now <==> l in was || l == level)
    {
      assert was == was[..i] + was[i..];
      NodesAround(was[..i], level, was[i..]);
      NodesAppend(was[..i], was[i..]);
      hide NodesOf, CountEmpty;
      assert NodesOf(was[..i]) + [] == NodesOf(was[..i]);
    }

    /** Everything is in order but for the level about to be filled, which is not counted even if it is empty. */
    ghost predicate Awaits(level: PriceLevel)
      reads this, priceTree, priceTree.repr, Levels(), Orders()
    {
      && Shaped() && level in ladder
      && emptyLevelCount == CountEmpty(ladder) - (if level.nodes == [] then 1 else 0)
      && Leads(orderMap, NodesOf(ladder)) && Wanting(NodesOf(ladder))
    }

    method Place(node: OrderNode, level: PriceLevel)
      requires Awaits(level) && node !in Orders() && node.price == level.price
      requires node.orderId !in orderMap && node.remainingQty > 0 && node.price == PriceToBigint(node.decimalPrice)
      modifies this`orderMap, node`prev, node`next, node`priceLevel, level, (set n | n in level.nodes)`next
      ensures Valid() && ladder == old(ladder) && Queue() == Enqueue(taker, old(Queue()), old(MakerOf(node)))
      ensures orderMap == old(orderMap)[node.orderId := node] && Orders() <= old(Orders()) + {node} && Levels() == old(Levels())
    {
      hide Shaped, Makers, NodesOf, CountEmpty, Enqueue, MakerOf, Leads, Wanting, Orders, PriceToBigint;
      ghost var c := NodesOf(ladder);
      QueueUp(node, level);
      IndexApart();
      orderMap := orderMap[node.orderId := node];
      LeadsWith(old(orderMap), c, NodesOf(ladder), node);
    }

    /** The order takes its place; it is not in the order map yet. */
    method QueueUp(node: OrderNode, level: PriceLevel)
      requires Awaits(level) && node !in Orders() && node.price == level.price
      requires node.remainingQty > 0 && node.price == PriceToBigint(node.decimalPrice)
      modifies node`prev, node`next, node`priceLevel, level, (set n | n in level.nodes)`next
      ensures Shaped() && emptyLevelCount == CountEmpty(ladder) && Wanting(NodesOf(ladder))
      ensures Queue() == Enqueue(taker, old(Queue()), old(MakerOf(node)))
      ensures (forall n :: n in NodesOf(ladder) <==> n in old(NodesOf(ladder)) || n == node) && Orders() <= old(Orders()) + {node}
    {
      hide Indexed, AllValid, Makers, NodesOf, CountEmpty, Enqueue, T.BPlusTree.Valid, T.BPlusTree.Entries, MakerOf,
        PriceToBigint;
      ghost var i := PlaceOf(taker, ladder, level.price);
      OrdersAreNodes();
      AppendTo(level, node, i);
      OrdersListed();
      OrdersAreNodes();
    }

    static lemma {:induction false} LeadsWith(m: map<string, OrderNode>, c: seq<OrderNode>, d: seq<OrderNode>, node: OrderNode)
      requires Leads(m, c) && node.orderId !in m && forall n :: n in d <==> n in c || n == node
      ensures Leads(m[node.orderId := node], d)
    {
    }

    lemma {:induction false} OrdersListed()
      ensures forall n :: n in NodesOf(ladder) ==> n in Orders()
    {
      forall n | n in NodesOf(ladder) ensures n in Orders() {
        InNodes(ladder, n);
      }
    }

    /** The order goes to the back of the level at place i. */
    method AppendTo(level: PriceLevel, node: OrderNode, ghost i: nat)
      requires Indexed() && AllValid(ladder) && level in ladder && node.price == level.price && node !in Orders()
      requires i == PlaceOf(taker, ladder, level.price) && forall n :: n in NodesOf(ladder) ==> n in Orders()
      modifies node`prev, node`next, node`priceLevel, level, (set n | n in level.nodes)`next
      ensures AllValid(ladder) && CountEmpty(ladder) == old(CountEmpty(ladder)) - if old(level.nodes) == [] then 1 else 0
      ensures forall n :: n in NodesOf(ladder) <==> n in old(NodesOf(ladder)) || n == node
      ensures Makers(NodesOf(ladder)) == Enqueue(taker, old(Queue()), old(MakerOf(node)))
    {
      hide Enqueue, Makers, NodesOf, CountEmpty, Sorted, AllValid, PriceLevel.Valid;
      PlaceOfLevel(taker, ladder, level);
      EnqueueInLevel(taker, ladder, i, MakerOf(node));
      ghost var a, b, c := ladder[..i], ladder[i + 1..], level.nodes;
      Split(ladder, i);
      NodesAround(a, level, b);
      OthersApart(level);
      AllValidAround(a, level, b);
      AppendApart(level, node, a, b);
      AllValidAround(a, level, b);
      NodesAround(a, level, b);
      MakersAround(a, level, b);
      MakersAppend(c, [node]);
      MakersOne(node);
    }

    /** Appending to one level leaves the others alone. */
    static method AppendApart(level: PriceLevel, node: OrderNode, ghost a: seq<PriceLevel>, ghost b: seq<PriceLevel>)
      requires level.Valid() && AllValid(a) && AllValid(b) && level !in a && level !in b
      requires node !in level.nodes && node.price == level.price
      requires forall l, n :: (l in a || l in b) && n in l.nodes ==> n !in level.nodes && n != node
      modifies node`prev, node`next, node`priceLevel, level, (set n | n in level.nodes)`next
      ensures level.Valid() && AllValid(a) && AllValid(b) && level.nodes == old(level.nodes) + [node]
      ensures NodesOf(a) == old(NodesOf(a)) && NodesOf(b) == old(NodesOf(b))
      ensures CountEmpty(a) == old(CountEmpty(a)) && CountEmpty(b) == old(CountEmpty(b))
      ensures Makers(NodesOf(a)) == old(Makers(NodesOf(a))) && Makers(NodesOf(b)) == old(Makers(NodesOf(b)))
      ensures Makers(old(level.nodes)) == old(Makers(level.nodes)) && MakerOf(node) == old(MakerOf(node))
    {
      hide NodesOf, CountEmpty, Linked, Makers;
      ghost var na, nb := NodesOf(a), NodesOf(b);
      ghost var qa, qb := Makers(na), Makers(nb);
      level.Append(node);
      assert NodesOf(a) == na && NodesOf(b) == nb;
      assert Makers(na) == qa && Makers(nb) == qb;
    }

    static lemma {:induction false} Split(ls: seq<PriceLevel>, i: nat)
      requires i < |ls|
      ensures ls == ls[..i] + [ls[i]] + ls[i + 1..]
    {
    }

    static lemma {:induction false} AllValidAround(a: seq<PriceLevel>, l: PriceLevel, b: seq<PriceLevel>)
      ensures AllValid(a + [l] + b) <==> AllValid(a) && l.Valid() && AllValid(b)
    {
      var ls := a + [l] + b;
      assert forall k :: k in ls <==> k in a || k == l || k in b;
    }

    /** Levels share no orders. */
    lemma {:induction false} OthersApart(level: PriceLevel)
      requires AllValid(ladder) && level in ladder
      ensures forall l, n :: l in ladder && l != level && n in l.nodes ==> n !in level.nodes
      ensures forall l, n :: l in ladder && n in l.nodes ==> n in Orders()
    {
    }

    /** An index of one leaf takes in a new key without a split, if there are fewer keys than the order allows. */
    lemma {:induction false} FlatGrows(key: int, level: PriceLevel)
      requires TreeOk() && IsFlat() && key !in priceMap
      ensures priceTree.order >= 2 && R.Good(priceTree.tree, priceTree.order)
      ensures |priceMap| + 1 < priceTree.order ==> R.Insert(priceTree.tree, key, level, priceTree.order).value.Leaf?
    {
      priceTree.ChainListsEntries();
      MapSize(R.Contents(priceTree.tree));
      hide R.Good, T.BPlusTree.Holds, T.BPlusTree.LeafChain, ToMap;
      if |priceMap| + 1 < priceTree.order {
        E.LeafTakes(priceTree.tree, key, level, priceTree.order);
      }
    }

    /** A new empty level, not yet counted as empty. */
    method OpenLevel(key: int) returns (level: PriceLevel)
      requires Indexed() && TreeOk() && key !in priceMap
      modifies this`priceMap, this`priceKeys, this`ladder, priceTree, priceTree.repr
      ensures Indexed() && TreeOk() && fresh(level) && level.Valid() && level.nodes == [] && level.price == key
      ensures fresh(priceTree.repr - old(priceTree.repr))
      ensures var i := PlaceOf(taker, old(ladder), key); ladder == old(ladder)[..i] + [level] + old(ladder)[i..]
      ensures Opens(key) && (old(IsFlat()) && |priceMap| < priceTree.order ==> IsFlat())
    {
      hide T.BPlusTree.Valid, T.BPlusTree.Entries, IndexedBy, R.Insert, R.Good, R.Contents, PriceLevel.Valid;
      IndexApart();
      level := new PriceLevel(key);
      if IsFlat() {
        FlatGrows(key, level);
      }
      priceMap := priceMap[key := level];
      priceKeys := priceKeys + [key];
      priceTree.Insert(key, level);
      IndexedWith(taker, ladder, old(priceMap), old(priceKeys), level);
      ghost var i := PlaceOf(taker, ladder, key);
      ladder := ladder[..i] + [level] + ladder[i..];
    }

    // ---- dropping empty levels

    /** The index has lost a key, and its leaves are linked as that left them. */
    twostate predicate KeyLeft(key: int)
      requires old(priceTree.Valid())
      reads priceTree, priceTree.repr
    {
      && priceTree.tree == R.After(old(priceTree.tree), R.DelOp(key), priceTree.order)
      && priceTree.LosesFrom(old(priceTree.LeafChain()), old(priceTree.tree), key)
    }

    /** The index is one leaf, or empty. */
    ghost predicate IsFlat()
      reads priceTree
    {
      priceTree.tree.Some? ==> priceTree.tree.value.Leaf?
    }

    /** No key has come in, and an index of one leaf has stayed one. */
    twostate predicate Slims()
      reads this`priceMap, priceTree
    {
      priceMap.Keys <= old(priceMap.Keys) && (old(IsFlat()) ==> IsFlat())
    }

    static lemma {:induction false} FlatAfter(root: R.Root<PriceLevel>, key: int, order: int)
      requires order >= 2 && R.Good(root, order) && (root.Some? ==> root.value.Leaf?)
      ensures var r := R.After(root, R.DelOp(key), order); r.Some? ==> r.value.Leaf?
    {
    }

    /** Takes an empty level out of both price indexes. */
    method DropLevel(level: PriceLevel, ghost i: nat)
      requires Shaped() && i < |ladder| && ladder[i] == level && level.nodes == []
      modifies this`priceMap, this`priceKeys, this`ladder, priceTree, priceTree.repr
      ensures Shaped() && ladder == old(ladder)[..i] + old(ladder)[i + 1..] && priceTree.repr == old(priceTree.repr)
      ensures NodesOf(ladder) == old(NodesOf(ladder)) && CountEmpty(ladder) == old(CountEmpty(ladder)) - 1
      ensures priceMap == old(priceMap) - {level.price}
      ensures Levels() <= old(Levels())
      ensures KeyLeft(level.price)
      ensures Slims()
    {
      hide Indexed, TreeOk, NodesOf, CountEmpty, PriceLevel.Valid, AllValid;
      ghost var was := ladder;
      DropEmpty(was, i);
      Unindex(level, i);
      FewerValid(was, i);
      OrdersListed();
    }

    static lemma {:induction false} FewerValid(ls: seq<PriceLevel>, i: nat)
      requires AllValid(ls) && i < |ls|
      ensures AllValid(ls[..i] + ls[i + 1..])
    {
      hide PriceLevel.Valid;
    }

    method Unindex(level: PriceLevel, ghost i: nat)
      requires Indexed() && TreeOk() && i < |ladder| && ladder[i] == level
      modifies this`priceMap, this`priceKeys, this`ladder, priceTree, priceTree.repr
      ensures Indexed() && TreeOk() && ladder == old(ladder)[..i] + old(ladder)[i + 1..] && priceTree.repr == old(priceTree.repr)
      ensures priceMap == old(priceMap) - {level.price}
      ensures KeyLeft(level.price)
      ensures Slims()
    {
      hide T.BPlusTree.Valid, T.BPlusTree.Entries, IndexedBy, KeyLeft;
      IndexedWithout(taker, ladder, priceMap, priceKeys, i);
      DropFromTree(level.price);
      IndexApart();
      priceMap := priceMap - {level.price};
      priceKeys := DropKey(priceKeys, level.price);
      ladder := ladder[..i] + ladder[i + 1..];
    }

    method DropFromTree(key: int)
      requires priceTree.Valid() && key in priceTree.Entries()
      modifies priceTree, priceTree.repr
      ensures priceTree.Valid() && priceTree.Entries() == old(priceTree.Entries()) - {key} && priceTree.repr == old(priceTree.repr)
      ensures KeyLeft(key) && (old(IsFlat()) ==> IsFlat())
    {
      hide T.BPlusTree.Valid, T.BPlusTree.Entries, T.BPlusTree.LosesFrom, R.After;
      if IsFlat() {
        DroppingKeepsFlat(key);
      }
      var deleted := priceTree.Delete(key);
    }

    lemma {:induction false} DroppingKeepsFlat(key: int)
      requires priceTree.Valid() && IsFlat()
      ensures var r := R.After(priceTree.tree, R.DelOp(key), priceTree.order); r.Some? ==> r.value.Leaf?
    {
      FlatAfter(priceTree.tree, key, priceTree.order);
      hide T.BPlusTree.Valid;
    }

    /** This object is no part of its index. */
    lemma {:induction false} IndexApart()
      ensures (priceTree as object) != this && (forall n :: n in priceTree.repr ==> (n as object) != this)
      ensures forall l :: l in Levels() ==> (l as object) != this
      ensures forall n :: n in Orders() ==> (n as object) != this
    {
    }

    method CleanupLevel(level: PriceLevel, ghost i: nat)
      requires Valid() && i < |ladder| && ladder[i] == level && level.nodes == []
      modifies this`priceMap, this`priceKeys, this`ladder, this`emptyLevelCount, priceTree, priceTree.repr
      ensures Valid() && ladder == old(ladder)[..i] + old(ladder)[i + 1..] && NodesOf(ladder) == old(NodesOf(ladder))
      ensures priceTree.repr == old(priceTree.repr)
      ensures Levels() <= old(Levels())
      ensures priceMap == old(priceMap) - {level.price} && KeyLeft(level.price) && emptyLevelCount == old(emptyLevelCount) - 1
      ensures Slims()
    {
      hide KeyLeft, Leads, Wanting, NodesOf, CountEmpty, TreeOk, AllValid, Indexed;
      DropLevel(level, i);
      emptyLevelCount := emptyLevelCount - 1;
    }

    /** Drops all empty levels once they are more than a fifth of all. */
    method MaybeCleanup()
      requires Shaped() && emptyLevelCount == CountEmpty(ladder)
      modifies this`priceMap, this`priceKeys, this`ladder, this`emptyLevelCount, priceTree, priceTree.repr
      ensures Shaped() && emptyLevelCount == CountEmpty(ladder) && NodesOf(ladder) == old(NodesOf(ladder))
      ensures if |old(priceMap)| > 0 && old(emptyLevelCount) * 5 > |old(priceMap)| then CountEmpty(ladder) == 0
              else ladder == old(ladder) && priceMap == old(priceMap) && emptyLevelCount == old(emptyLevelCount)
      ensures priceTree.repr == old(priceTree.repr) && Trims()
      ensures Levels() <= old(Levels())
      ensures Slims()
    {
      hide NodesOf, CountEmpty, TreeOk, AllValid, Indexed;
      NoneMissing();
      if |priceMap| > 0 && emptyLevelCount * 5 > |priceMap| {
        CleanupAll();
        emptyLevelCount := 0;
      }
    }

    /** The keys no longer mapped have been deleted from the index, in their order. */
    twostate predicate Trims()
      requires old(priceTree.Valid())
      reads this`priceMap, priceTree
    {
      priceTree.tree == E.AfterAll(old(priceTree.tree), Missing(old(priceKeys), priceMap), priceTree.order)
    }

    lemma {:induction false} NoneMissing()
      requires Shaped()
      ensures Missing(priceKeys, priceMap) == []
    {
      KeysAreMapped();
      MissingIn(priceKeys, priceMap);
      hide Shaped;
    }

    lemma {:induction false} NothingGone(keys: seq<int>)
      requires priceTree.order >= 2 && R.Good(priceTree.tree, priceTree.order)
      ensures E.AfterAll(priceTree.tree, Missing(keys[..0], priceMap), priceTree.order) == priceTree.tree
    {
    }

    /** The next of the keys. */
    method CleanNext(keys: seq<int>, i: nat, ghost was: R.Root<PriceLevel>)
      requires Shaped() && i < |keys| && keys[i] in priceMap && forall j, k :: 0 <= j < k < |keys| ==> keys[j] != keys[k]
      requires priceTree.order >= 2 && R.Good(was, priceTree.order)
      requires priceTree.tree == E.AfterAll(was, Missing(keys[..i], priceMap), priceTree.order)
      modifies this`priceMap, this`priceKeys, this`ladder, priceTree, priceTree.repr
      ensures Shaped() && NodesOf(ladder) == old(NodesOf(ladder)) && priceTree.repr == old(priceTree.repr)
      ensures Levels() <= old(Levels())
      ensures priceMap == if old(priceMap[keys[i]].nodes) == [] then old(priceMap) - {keys[i]} else old(priceMap)
      ensures priceTree.tree == E.AfterAll(was, Missing(keys[..i + 1], priceMap), priceTree.order)
      ensures Slims() && forall p :: p in priceMap ==> priceMap[p].nodes == old(priceMap[p].nodes)
    {
      hide NodesOf, Shaped, R.Good, R.After, E.AfterAll, Missing;
      StillMissing(keys, i, priceMap);
      OneMoreGone(was, keys, i, priceMap);
      CleanIfEmpty(keys[i]);
    }

    lemma {:induction false} OneMoreGone(was: R.Root<PriceLevel>, keys: seq<int>, i: nat, m: map<int, PriceLevel>)
      requires priceTree.order >= 2 && R.Good(was, priceTree.order) && i < |keys|
      ensures var gone := Missing(keys[..i], m);
              && R.Good(E.AfterAll(was, gone, priceTree.order), priceTree.order)
              && E.AfterAll(was, gone + [keys[i]], priceTree.order)
                 == R.After(E.AfterAll(was, gone, priceTree.order), R.DelOp(keys[i]), priceTree.order)
    {
      E.AfterAllAppend(was, Missing(keys[..i], m), keys[i], priceTree.order);
    }

    method CleanupAll()
      requires Shaped()
      modifies this`priceMap, this`priceKeys, this`ladder, priceTree, priceTree.repr
      ensures Shaped() && CountEmpty(ladder) == 0 && NodesOf(ladder) == old(NodesOf(ladder))
      ensures priceTree.repr == old(priceTree.repr) && Trims()
      ensures Levels() <= old(Levels())
      ensures Slims()
    {
      hide NodesOf, CountEmpty, Shaped, PriceLevel.Valid, PriceLevel.IsEmpty, T.BPlusTree.Valid, R.Good, R.After, E.AfterAll,
        Missing, IsFlat;
      var keys := priceKeys;
      KeysAreMapped();
      TreeIsValid();
      NothingGone(keys);
      for i := 0 to |keys|
        invariant priceTree.tree == E.AfterAll(old(priceTree.tree), Missing(keys[..i], priceMap), priceTree.order)
        invariant Shaped() && NodesOf(ladder) == old(NodesOf(ladder)) && priceTree.repr == old(priceTree.repr)
        invariant Slims()
        invariant Levels() <= old(Levels())
        invariant forall p :: p in priceMap ==> p in keys
        invariant forall j :: 0 <= j < i && keys[j] in priceMap ==> priceMap[keys[j]].nodes != []
        invariant forall j :: i <= j < |keys| ==> keys[j] in priceMap
      {
        CleanNext(keys, i, old(priceTree.tree));
      }
      assert keys[..|keys|] == keys && keys == old(priceKeys);
      LevelsAreMapped();
      NoneEmpty(ladder);
    }

    lemma {:induction false} KeysAreMapped()
      requires Shaped()
      ensures forall p :: p in priceMap ==> p in priceKeys
      ensures forall j :: 0 <= j < |priceKeys| ==> priceKeys[j] in priceMap
      ensures forall i, j :: 0 <= i < j < |priceKeys| ==> priceKeys[i] != priceKeys[j]
    {
      LevelIndex.KeysAreMapped(taker, ladder, priceMap, priceKeys);
      hide AllValid, TreeOk, IndexedBy, NodesOf;
    }

    lemma {:induction false} LevelsAreMapped()
      requires Shaped()
      ensures forall l :: l in ladder ==> l.price in priceMap && priceMap[l.price] == l
    {
      hide AllValid, TreeOk, Sorted, NodesOf;
    }

    method CleanIfEmpty(p: int)
      requires Shaped() && p in priceMap
      modifies this`priceMap, this`priceKeys, this`ladder, priceTree, priceTree.repr
      ensures Shaped() && NodesOf(ladder) == old(NodesOf(ladder)) && priceTree.repr == old(priceTree.repr)
      ensures Levels() <= old(Levels())
      ensures priceMap == if old(priceMap[p].nodes) == [] then old(priceMap) - {p} else old(priceMap)
      ensures priceTree.order >= 2 && R.Good(old(priceTree.tree), priceTree.order)
      ensures priceTree.tree == if old(priceMap[p].nodes) == [] then R.After(old(priceTree.tree), R.DelOp(p), priceTree.order) else old(priceTree.tree)
      ensures Slims()
    {
      hide NodesOf, CountEmpty, PriceLevel.Valid, TreeOk, Sorted, R.Good, R.After;
      TreeIsValid();
      var level := priceMap[p];
      EmptyIn(level);
      if level.IsEmpty() {
        ghost var at := PlaceOf(taker, ladder, level.price);
        PlaceIn(level);
        DropLevel(level, at);
      }
    }

    lemma {:induction false} EmptyIn(level: PriceLevel)
      requires AllValid(ladder) && level in ladder
      ensures level.IsEmpty() <==> level.nodes == []
    {
      EmptyMeans(level);
    }

    lemma {:induction false} PlaceIn(level: PriceLevel)
      requires Indexed() && level in ladder
      ensures var i := PlaceOf(taker, ladder, level.price); i < |ladder| && ladder[i] == level
    {
      PlaceOfLevel(taker, ladder, level);
    }

    static lemma {:induction false} NoneEmpty(ls: seq<PriceLevel>)
      requires forall l :: l in ls ==> l.nodes != []
      ensures CountEmpty(ls) == 0
    {
      if ls != [] {
        NoneEmpty(ls[1..]);
      }
    }

    // ---- taking orders out

    /** Removing from one level leaves the others alone. */
    static method RemoveApart(level: PriceLevel, node: OrderNode, ghost j: nat, ghost a: seq<PriceLevel>, ghost b: seq<PriceLevel>)
      requires level.Valid() && AllValid(a) && AllValid(b) && level !in a && level !in b
      requires j < |level.nodes| && level.nodes[j] == node
      requires forall l, n :: (l in a || l in b) && n in l.nodes ==> n !in level.nodes
      modifies node`prev, node`next, node`priceLevel, level, (set n | n in level.nodes)`next, (set n | n in level.nodes)`prev
      ensures level.Valid() && AllValid(a) && AllValid(b)
      ensures level.nodes == old(level.nodes)[..j] + old(level.nodes)[j + 1..]
      ensures NodesOf(a) == old(NodesOf(a)) && NodesOf(b) == old(NodesOf(b))
      ensures CountEmpty(a) == old(CountEmpty(a)) && CountEmpty(b) == old(CountEmpty(b))
    {
      hide NodesOf, CountEmpty, Linked, Makers;
      level.Remove(node, j);
    }

    /** Takes the j-th order out of the level at place i, and counts the level if that empties it. */
    method TakeOut(node: OrderNode, level: PriceLevel, ghost i: nat, ghost j: nat)
      requires Shaped() && emptyLevelCount == CountEmpty(ladder)
      requires i < |ladder| && ladder[i] == level && level !in ladder[..i] && level !in ladder[i + 1..]
      requires j < |level.nodes| && level.nodes[j] == node
      modifies node`prev, node`next, node`priceLevel, level, (set n | n in level.nodes)`next, (set n | n in level.nodes)`prev
      modifies this`emptyLevelCount
      ensures Shaped() && emptyLevelCount == CountEmpty(ladder) && (level.nodes == [] <==> level.orderCount == 0)
      ensures emptyLevelCount == old(emptyLevelCount) + if level.nodes == [] then 1 else 0
      ensures var k := |old(NodesOf(ladder[..i]))| + j; var c := old(NodesOf(ladder));
              k < |c| && c[k] == node && NodesOf(ladder) == c[..k] + c[k + 1..]
    {
      hide NodesOf, CountEmpty, AllValid, TreeOk, Makers, PriceLevel.Valid, IndexedBy;
      ghost var a, b, c := ladder[..i], ladder[i + 1..], level.nodes;
      Split(ladder, i);
      NodesAround(a, level, b);
      OthersApart(level);
      AllValidAround(a, level, b);
      WithoutMiddle(NodesOf(a), c, NodesOf(b), j);
      RemoveApart(level, node, j, a, b);
      AllValidAround(a, level, b);
      NodesAround(a, level, b);
      EmptyMeans(level);
      OrdersListed();
      if level.IsEmpty() {
        emptyLevelCount := emptyLevelCount + 1;
      }
    }

    lemma {:induction false} PlaceKnownAt(level: PriceLevel)
      requires Indexed() && level in ladder
      ensures var i := PlaceOf(taker, ladder, level.price);
              i < |ladder| && ladder[i] == level && forall l :: l in ladder[..i] + ladder[i + 1..] <==> l in ladder && l != level
    {
      PlaceOfLevel(taker, ladder, level);
      DropSorted(taker, ladder, PlaceOf(taker, ladder, level.price));
    }

    lemma {:induction false} PlaceKnown(level: PriceLevel)
      requires Indexed() && level in ladder
      ensures var i := PlaceOf(taker, ladder, level.price); i < |ladder| && level !in ladder[..i] && level !in ladder[i + 1..]
    {
      PlaceOfLevel(taker, ladder, level);
    }

    /** An order of this price has gone: if it was the last one there, its level counts as empty, and with more than a fifth of
        all levels empty these go. */
    twostate predicate Swept(price: int)
      reads this`ladder, Levels()`nodes, this`priceMap, this`emptyLevelCount
    {
      var last := forall n :: n in NodesOf(ladder) ==> n.price != price;
      if last && (old(emptyLevelCount) + 1) * 5 > |old(priceMap)| then emptyLevelCount == 0
      else priceMap == old(priceMap) && emptyLevelCount == old(emptyLevelCount) + if last then 1 else 0
    }

    /** Cancels the order with this id, wherever it rests. */
    method RemoveOrder(orderId: string)
      requires Valid()
      modifies this`orderMap, this`priceMap, this`priceKeys, this`ladder, this`emptyLevelCount
      modifies priceTree, priceTree.repr, Levels(), Orders()
      ensures Valid() && orderMap == old(orderMap) - {orderId}
      ensures Queue() == if orderId in old(orderMap) then Remove(old(Queue()), orderId, old(orderMap)[orderId].price) else old(Queue())
      ensures Levels() <= old(Levels()) && Orders() <= old(Orders()) && priceTree.repr == old(priceTree.repr)
      ensures Trims() && if orderId in old(orderMap) then Swept(old(orderMap)[orderId].price)
                         else priceMap == old(priceMap) && emptyLevelCount == old(emptyLevelCount)
      ensures Slims()
    {
      hide Shaped, CountEmpty, NodesOf, Makers, Remove, Leads, Wanting, Swept, E.AfterAll, Missing, R.Good;
      if orderId !in orderMap {
        NotThere(orderMap, orderId);
        NothingTrimmed();
        return;
      }
      var node := orderMap[orderId];
      MapLeads(orderMap, NodesOf(ladder), orderId);
      ghost var c := NodesOf(ladder);
      AllDistinct();
      ghost var k := DetachKept(node);
      LeadsWithout(old(orderMap), c, k);
      OthersStay(c, k);
      IndexApart();
      orderMap := orderMap - {orderId};
    }

    static lemma {:induction false} NotThere(m: map<string, OrderNode>, id: string)
      requires id !in m
      ensures m - {id} == m
    {
    }

    static lemma {:induction false} MapLeads(m: map<string, OrderNode>, c: seq<OrderNode>, id: string)
      requires Leads(m, c) && id in m
      ensures m[id].orderId == id && m[id] in c
    {
    }

    /** Detaching an order leaves what the others still want. */
    method DetachKept(node: OrderNode) returns (ghost k: nat)
      requires Shaped() && emptyLevelCount == CountEmpty(ladder) && node in NodesOf(ladder) && Wanting(NodesOf(ladder))
      modifies this`priceMap, this`priceKeys, this`ladder, this`emptyLevelCount, priceTree, priceTree.repr
      modifies Levels(), Orders()`prev, Orders()`next, Orders()`priceLevel
      ensures Shaped() && emptyLevelCount == CountEmpty(ladder) && priceTree.repr == old(priceTree.repr)
      ensures Levels() <= old(Levels()) && Orders() <= old(Orders())
      ensures var c := old(NodesOf(ladder)); k < |c| && c[k] == node && NodesOf(ladder) == c[..k] + c[k + 1..]
      ensures Makers(old(NodesOf(ladder))) == old(Makers(NodesOf(ladder))) && Wanting(NodesOf(ladder))
      ensures Trims() && Swept(node.price)
      ensures Slims()
    {
      hide Shaped, CountEmpty, NodesOf, Makers, Trims, Swept;
      ghost var c := NodesOf(ladder);
      OrdersAreNodes();
      k := Detach(node);
      OrdersAreNodes();
      MakersSame(c);
    }

    /** Takes an order out of its level, and cleans up if that left too many levels empty. */
    method Detach(node: OrderNode) returns (ghost k: nat)
      requires Shaped() && emptyLevelCount == CountEmpty(ladder) && node in NodesOf(ladder)
      modifies this`priceMap, this`priceKeys, this`ladder, this`emptyLevelCount, priceTree, priceTree.repr
      modifies Levels(), Orders()`prev, Orders()`next, Orders()`priceLevel
      ensures Shaped() && emptyLevelCount == CountEmpty(ladder) && priceTree.repr == old(priceTree.repr)
      ensures Levels() <= old(Levels())
      ensures var c := old(NodesOf(ladder)); k < |c| && c[k] == node && NodesOf(ladder) == c[..k] + c[k + 1..]
      ensures forall n :: n in old(NodesOf(ladder)) ==> n.remainingQty == old(n.remainingQty)
      ensures Trims() && Swept(node.price)
      ensures Slims()
    {
      hide Indexed, TreeOk, AllValid, CountEmpty, NodesOf, PriceLevel.Valid, E.AfterAll, Missing, R.Good, IsFlat,
        T.BPlusTree.Valid;
      OrdersAreNodes();
      IndexApart();
      var level;
      level, k := Unhook(node);
      SweepAfter(level);
    }

    /** Takes an order out of its level, which is then counted if it has run empty. */
    method Unhook(node: OrderNode) returns (level: PriceLevel, ghost k: nat)
      requires Shaped() && emptyLevelCount == CountEmpty(ladder) && node in NodesOf(ladder)
      modifies this`emptyLevelCount, Levels(), Orders()`prev, Orders()`next, Orders()`priceLevel
      ensures Shaped() && emptyLevelCount == CountEmpty(ladder) && level in ladder && level.price == node.price
      ensures emptyLevelCount == old(emptyLevelCount) + if level.nodes == [] then 1 else 0
      ensures var c := old(NodesOf(ladder)); k < |c| && c[k] == node && NodesOf(ladder) == c[..k] + c[k + 1..]
      ensures forall n :: n in old(NodesOf(ladder)) ==> n.remainingQty == old(n.remainingQty)
    {
      hide Indexed, TreeOk, AllValid, CountEmpty, NodesOf, PriceLevel.Valid, PriceLevel.IsEmpty;
      InItsLevel(node);
      level := node.priceLevel;
      ghost var i := PlaceOf(taker, ladder, level.price);
      ghost var j :| 0 <= j < |level.nodes| && level.nodes[j] == node;
      k := |NodesOf(ladder[..i])| + j;
      PlaceKnown(level);
      TakeOut(node, level, i, j);
    }

    /** Sweeps the levels if this one has run empty. */
    method SweepAfter(level: PriceLevel)
      requires Shaped() && emptyLevelCount == CountEmpty(ladder) && level in ladder
      modifies this`priceMap, this`priceKeys, this`ladder, this`emptyLevelCount, priceTree, priceTree.repr
      ensures Shaped() && emptyLevelCount == CountEmpty(ladder) && NodesOf(ladder) == old(NodesOf(ladder))
      ensures priceTree.repr == old(priceTree.repr) && Levels() <= old(Levels()) && Trims() && Slims()
      ensures old(level.nodes) == [] <==> forall n :: n in NodesOf(ladder) ==> n.price != level.price
      ensures if old(level.nodes) == [] && old(emptyLevelCount) * 5 > |old(priceMap)| then emptyLevelCount == 0
              else priceMap == old(priceMap) && emptyLevelCount == old(emptyLevelCount)
    {
      hide Indexed, TreeOk, AllValid, CountEmpty, NodesOf, PriceLevel.Valid, E.AfterAll, Missing;
      LastOne(level);
      EmptyIn(level);
      if level.IsEmpty() {
        MaybeCleanup();
      } else {
        NothingTrimmed();
      }
    }

    /** A level is empty if no order has its price. */
    lemma {:induction false} LastOne(level: PriceLevel)
      requires Shaped() && level in ladder
      ensures level.price in priceMap
      ensures level.nodes == [] <==> forall n :: n in NodesOf(ladder) ==> n.price != level.price
    {
      hide TreeOk, AllValid, NodesOf;
      if level.nodes == [] {
        NoneOf(level);
      } else {
        NodePrice(level);
      }
    }

    lemma {:induction false} NodePrice(level: PriceLevel)
      requires Shaped() && level in ladder && level.nodes != []
      ensures level.nodes[0] in NodesOf(ladder) && level.nodes[0].price == level.price
    {
      assert level.Valid();
      InNodes(ladder, level.nodes[0]);
    }

    lemma {:induction false} NoneOf(level: PriceLevel)
      requires Shaped() && level in ladder && level.nodes == []
      ensures forall n :: n in NodesOf(ladder) ==> n.price != level.price
    {
      forall n | n in NodesOf(ladder) ensures n.price != level.price {
        NodeInItsLevel(ladder, n);
      }
      hide NodesOf, PriceLevel.Valid;
    }

    lemma {:induction false} NothingTrimmed()
      requires Shaped()
      ensures priceTree.order >= 2 && R.Good(priceTree.tree, priceTree.order)
      ensures E.AfterAll(priceTree.tree, Missing(priceKeys, priceMap), priceTree.order) == priceTree.tree
    {
      NoneMissing();
    }

    static lemma {:induction false} FirstGone(c: seq<OrderNode>)
      requires c != []
      ensures c[..0] + c[0 + 1..] == c[1..]
    {
    }

    lemma {:induction false} AllDistinct()
      requires Shaped()
      ensures NoDup(NodesOf(ladder))
    {
      NodesDistinct(taker, ladder);
    }

    /** An order of the map is in the level it names, and that level has its place. */
    lemma {:induction false} InItsLevel(node: OrderNode)
      requires Shaped() && node in NodesOf(ladder)
      ensures node.priceLevel != null && node.priceLevel in ladder && node in node.priceLevel.nodes && node.price == node.priceLevel.price
      ensures var i := PlaceOf(taker, ladder, node.priceLevel.price); i < |ladder| && ladder[i] == node.priceLevel
    {
      NodeInItsLevel(ladder, node);
      PlaceOfLevel(taker, ladder, node.priceLevel);
    }

    /** Without the k-th order, the map without its id is right, and the list is what a removal leaves. */
    static lemma {:induction false} LeadsWithout(m: map<string, OrderNode>, c: seq<OrderNode>, k: nat)
      requires Leads(m, c) && NoDup(c) && k < |c|
      ensures Leads(m - {c[k].orderId}, c[..k] + c[k + 1..])
      ensures Remove(Makers(c), c[k].orderId, c[k].price) == Makers(c[..k] + c[k + 1..])
    {
      var d, n := c[..k] + c[k + 1..], c[k];
      OthersStay(c, k);
      forall i | 0 <= i < k ensures c[i].orderId != n.orderId {
        assert c[i] in c && n in c;
      }
      RemoveNode(c, k, n.price);
      hide Makers, Remove, NoDup;
    }

    static lemma {:induction false} OthersStay(c: seq<OrderNode>, k: nat)
      requires NoDup(c) && k < |c|
      ensures forall x :: x in c[..k] + c[k + 1..] <==> x in c && x != c[k]
    {
      var d := c[..k] + c[k + 1..];
      forall x ensures x in d <==> x in c && x != c[k] {
        if x in c && x != c[k] {
          var i :| 0 <= i < |c| && c[i] == x;
          assert d[if i < k then i else i - 1] == x;
        }
      }
    }

    // ---- applying matches

    /** The front order of a level wants less. */
    method Reduce(node: OrderNode, level: PriceLevel, qty: int, ghost a: seq<PriceLevel>, ghost b: seq<PriceLevel>)
      requires level.Valid() && AllValid(a) && AllValid(b) && level !in a && level !in b && level.nodes != [] && level.nodes[0] == node
      requires forall l, n :: (l in a || l in b) && n in l.nodes ==> n !in level.nodes
      modifies node`remainingQty, level`totalQty
      ensures level.Valid() && AllValid(a) && AllValid(b)
      ensures node.remainingQty == old(node.remainingQty) - qty
    {
      hide PriceLevel.Valid;
      assert node in level.nodes;
      ReduceIn(node, level, qty);
    }

    static method ReduceIn(node: OrderNode, level: PriceLevel, qty: int)
      requires level.Valid() && level.nodes != [] && level.nodes[0] == node
      modifies node`remainingQty, level`totalQty
      ensures level.Valid() && node.remainingQty == old(node.remainingQty) - qty
    {
      hide Linked, Makers;
      ghost var c := level.nodes;
      assert c == [] + [node] + c[1..];
      FirstApart(level);
      TotalAround([], node, c[1..]);
      node.remainingQty := node.remainingQty - qty;
      level.totalQty := level.totalQty - qty;
      TotalAround([], node, c[1..]);
    }

    static lemma {:induction false} FirstApart(level: PriceLevel)
      requires level.Valid() && level.nodes != []
      ensures level.nodes[0] !in level.nodes[1..]
    {
    }

    /** Applies one match to the order at the front of the whole list. */
    method ApplyOne(m: V1Match)
      requires Valid() && NodesOf(ladder) != [] && NodesOf(ladder)[0] == m.makerNode
      requires 0 < m.quantity <= m.makerNode.remainingQty
      modifies this`orderMap, this`emptyLevelCount, Levels(), Orders()
      ensures Valid() && ladder == old(ladder)
      ensures forall id :: id in orderMap ==> id in old(orderMap) && orderMap[id] == old(orderMap)[id]
      ensures forall n :: n in old(NodesOf(ladder)) && n != m.makerNode ==> n.remainingQty == old(n.remainingQty)
      ensures var c := old(NodesOf(ladder));
              if m.quantity == old(m.makerNode.remainingQty) then NodesOf(ladder) == c[1..]
              else NodesOf(ladder) == c && m.makerNode.remainingQty == old(m.makerNode.remainingQty) - m.quantity
    {
      hide CountEmpty, NodesOf, AllValid, TreeOk, Makers, PriceLevel.Valid, IndexedBy, Leads;
      var node := m.makerNode;
      ghost var c := NodesOf(ladder);
      TailApart();
      ghost var i := ReduceFront(node, m.quantity);
      var level := node.priceLevel;
      if node.remainingQty == 0 {
        TakeFirst(node, level, i);
      } else {
        assert Wanting(c);
      }
    }

    lemma {:induction false} TailApart()
      requires Shaped() && NodesOf(ladder) != []
      ensures var c := NodesOf(ladder); c[0] !in c[1..] && forall n :: n in c <==> n == c[0] || n in c[1..]
    {
      AllDistinct();
      hide NodesOf, AllValid, TreeOk, Indexed;
    }

    method TakeFirst(node: OrderNode, level: PriceLevel, ghost i: nat)
      requires Shaped() && emptyLevelCount == CountEmpty(ladder) && Leads(orderMap, NodesOf(ladder))
      requires i < |ladder| && ladder[i] == level && level !in ladder[..i] && level !in ladder[i + 1..]
      requires level.nodes != [] && level.nodes[0] == node && NodesOf(ladder[..i]) == []
      modifies node`prev, node`next, node`priceLevel, level, (set n | n in level.nodes)`next, (set n | n in level.nodes)`prev
      modifies this`emptyLevelCount, this`orderMap
      ensures Shaped() && emptyLevelCount == CountEmpty(ladder) && Leads(orderMap, NodesOf(ladder))
      ensures forall id :: id in orderMap ==> id in old(orderMap) && orderMap[id] == old(orderMap)[id]
      ensures old(NodesOf(ladder)) != [] && NodesOf(ladder) == old(NodesOf(ladder))[1..]
    {
      hide CountEmpty, NodesOf, Shaped, Makers, PriceLevel.Valid, Leads, NoDup, PlaceOf;
      ghost var c := NodesOf(ladder);
      AllDistinct();
      TakeOut(node, level, i, 0);
      FirstGone(c);
      FirstLeft(orderMap, c);
      IndexApart();
      orderMap := orderMap - {node.orderId};
    }

    static lemma {:induction false} FirstLeft(m: map<string, OrderNode>, c: seq<OrderNode>)
      requires Leads(m, c) && NoDup(c) && c != []
      ensures Leads(m - {c[0].orderId}, c[1..])
    {
      hide Leads, NoDup, Makers, Remove;
      LeadsWithout(m, c, 0);
      FirstGone(c);
    }

    method ReduceFront(node: OrderNode, qty: int) returns (ghost i: nat)
      requires Shaped() && NodesOf(ladder) != [] && NodesOf(ladder)[0] == node
      modifies node`remainingQty, Levels()`totalQty
      ensures Shaped() && node.remainingQty == old(node.remainingQty) - qty
      ensures node.priceLevel != null && i < |ladder| && ladder[i] == node.priceLevel
      ensures node.priceLevel !in ladder[..i] && node.priceLevel !in ladder[i + 1..] && node.priceLevel.nodes != [] && node.priceLevel.nodes[0] == node
      ensures NodesOf(ladder[..i]) == [] && NodesOf(ladder) == old(NodesOf(ladder)) && CountEmpty(ladder) == old(CountEmpty(ladder))
    {
      hide CountEmpty, NodesOf, AllValid, TreeOk, Makers, PriceLevel.Valid, IndexedBy;
      Front();
      var level := node.priceLevel;
      i := PlaceOf(taker, ladder, level.price);
      ghost var a, b := ladder[..i], ladder[i + 1..];
      Split(ladder, i);
      PlaceKnown(level);
      OthersApart(level);
      AllValidAround(a, level, b);
      Reduce(node, level, qty, a, b);
      AllValidAround(a, level, b);
    }

    lemma {:induction false} Front()
      requires Shaped() && NodesOf(ladder) != []
      ensures var n := NodesOf(ladder)[0];
              && n.priceLevel != null && n.priceLevel in ladder
              && var i := PlaceOf(taker, ladder, n.priceLevel.price);
                 i < |ladder| && ladder[i] == n.priceLevel && n.priceLevel.nodes != [] && n.priceLevel.nodes[0] == n
                 && NodesOf(ladder[..i]) == []
    {
      FirstIsFront(taker, ladder);
    }

    lemma {:induction false} OrdersAreNodes()
      ensures forall n :: n in Orders() <==> n in NodesOf(ladder)
    {
      forall n: OrderNode | n in Orders() || n in NodesOf(ladder) ensures n in Orders() <==> n in NodesOf(ladder) {
        InNodes(ladder, n);
      }
    }

    /** The matches are about the first orders, in order. */
    static ghost predicate Aligned(ms: seq<V1Match>, c: seq<OrderNode>) {
      |ms| <= |c| && forall k :: 0 <= k < |ms| ==> ms[k].makerNode == c[k]
    }

    static lemma {:induction false} AlignedTail(ms: seq<V1Match>, c: seq<OrderNode>)
      requires Aligned(ms, c) && ms != []
      ensures c != [] && ms[0].makerNode == c[0] && Aligned(ms[1..], c[1..])
    {
    }

    static lemma {:induction false} AlignedEnd(ms: seq<V1Match>, c: seq<OrderNode>)
      requires |ms| == 1
      ensures Aligned(ms[1..], c)
    {
    }

    /** Applies the first of the outstanding matches. */
    method ApplyStep(m: V1Match, ghost ms: seq<V1Match>, ghost fs: seq<MatchResult>)
      requires Valid() && |fs| == |ms| > 0 && ms[0] == m && fs[0] == Plain(m) && FromFront(Queue(), fs)
      requires Aligned(ms, NodesOf(ladder))
      modifies this`orderMap, this`emptyLevelCount, Levels(), Orders()
      ensures Valid() && ladder == old(ladder) && Orders() <= old(Orders())
      ensures FromFront(Queue(), fs[1..]) && Served(Queue(), fs[1..]) == old(Served(Queue(), fs))
      ensures Aligned(ms[1..], NodesOf(ladder))
      ensures forall id :: id in orderMap ==> id in old(orderMap) && orderMap[id] == old(orderMap)[id]
    {
      hide Indexed, TreeOk, AllValid, Leads, Wanting, CountEmpty, NodesOf, FromFront, Served, Aligned;
      ghost var c := NodesOf(ladder);
      AlignedTail(ms, c);
      OrdersAreNodes();
      TailApart();
      ServeOne(Queue(), fs);
      assert Makers(c) == [MakerOf(c[0])] + Makers(c[1..]);
      ApplyOne(m);
      MakersSame(c[1..]);
      OrdersAreNodes();
      if |ms| == 1 {
        AlignedEnd(ms, NodesOf(ladder));
      }
    }

    /** Takes what was matched from the makers, and drops the orders it fills. */
    method ApplyMatches(matches: seq<V1Match>)
      requires Valid() && FromFront(Queue(), PlainAll(matches)) && Aligned(matches, NodesOf(ladder))
      modifies this`orderMap, this`priceMap, this`priceKeys, this`ladder, this`emptyLevelCount
      modifies priceTree, priceTree.repr, Levels(), Orders()
      ensures Valid() && Queue() == Served(old(Queue()), PlainAll(matches))
      ensures Levels() <= old(Levels()) && Orders() <= old(Orders()) && priceTree.repr == old(priceTree.repr)
      ensures forall id :: id in orderMap ==> id in old(orderMap) && orderMap[id] == old(orderMap)[id]
      ensures Slims()
    {
      hide Indexed, TreeOk, AllValid, Leads, Wanting, CountEmpty, NodesOf, FromFront, Served, Makers, Plain, Aligned;
      ghost var fs := PlainAll(matches);
      assert fs[0..] == fs && matches[0..] == matches;
      for i := 0 to |matches|
        invariant Slims()
        invariant Valid() && ladder == old(ladder) && Orders() <= old(Orders()) && priceTree.repr == old(priceTree.repr)
        invariant Aligned(matches[i..], NodesOf(ladder))
        invariant forall id :: id in orderMap ==> id in old(orderMap) && orderMap[id] == old(orderMap)[id]
        invariant FromFront(Queue(), fs[i..]) && Served(Queue(), fs[i..]) == Served(old(Queue()), fs)
      {
        TailFrom(fs, i);
        TailFrom(matches, i);
        ApplyStep(matches[i], matches[i..], fs[i..]);
      }
      assert fs[|matches|..] == [];
      NothingLeft(Queue());
      CleanupAfter();
    }

    static lemma {:induction false} TailFrom<T>(s: seq<T>, i: nat)
      requires i < |s|
      ensures s[i..] != [] && s[i..][0] == s[i] && s[i..][1..] == s[i + 1..]
    {
    }

    static lemma {:induction false} NothingLeft(q: seq<Maker>)
      ensures FromFront(q, []) && Served(q, []) == q
    {
    }

    method CleanupAfter()
      requires Valid()
      modifies this`priceMap, this`priceKeys, this`ladder, this`emptyLevelCount, priceTree, priceTree.repr
      ensures Valid() && Queue() == old(Queue()) && priceTree.repr == old(priceTree.repr)
      ensures Levels() <= old(Levels()) && Orders() <= old(Orders())
      ensures Slims()
    {
      hide Indexed, TreeOk, AllValid, CountEmpty, NodesOf, Makers, Leads;
      OrdersAreNodes();
      MaybeCleanup();
      OrdersAreNodes();
    }

    // ---- matching

    /** Takes from one level, front to back. */
    method TakeLevel(level: PriceLevel, ghost limit: Limit, remaining0: int) returns (remaining: int, ms: seq<V1Match>)
      requires level.Valid() && Wanting(level.nodes) && Crosses(taker, limit, level.price) && remaining0 >= 0
      ensures PlainAll(ms) == Fills(taker, limit, Makers(level.nodes), remaining0)
      ensures 0 <= remaining == remaining0 - FilledQty(PlainAll(ms))
      ensures Aligned(ms, level.nodes) && (remaining > 0 ==> |ms| == |level.nodes|)
      ensures forall m :: m in ms ==> m.price == m.makerNode.decimalPrice && m.makerOrderId == m.makerNode.orderId && m.makerNode in level.nodes
    {
      hide Linked, Fills, FilledQty, Makers, PlainAll, Plain, Aligned, Crosses, Wanting;
      remaining, ms := remaining0, [];
      var orderNode := level.head;
      ghost var c := level.nodes;
      TakeStarts(level, limit, remaining0);
      while orderNode != null && remaining != 0
        invariant remaining >= 0 && |ms| <= |c| && orderNode == At(c, |ms|)
        invariant PlainAll(ms) + Fills(taker, limit, Makers(c[|ms|..]), remaining) == Fills(taker, limit, Makers(c), remaining0)
        invariant remaining == remaining0 - FilledQty(PlainAll(ms)) && Aligned(ms, c)
        invariant forall m :: m in ms ==> m.price == m.makerNode.decimalPrice && m.makerOrderId == m.makerNode.orderId && m.makerNode in c
        decreases |c| - |ms|
      {
        var execQty := if remaining <= orderNode.remainingQty then remaining else orderNode.remainingQty;
        var m := V1Match(orderNode.orderId, orderNode.userId, orderNode.remainingQty, orderNode.decimalPrice, execQty, orderNode);
        TakeStep(level, limit, ms, remaining, m);
        ms := ms + [m];
        remaining := remaining - execQty;
        orderNode := orderNode.next;
      }
      TakeEnds(limit, c, ms, remaining);
    }

    lemma {:induction false} TakeStarts(level: PriceLevel, limit: Limit, qty: int)
      requires level.Valid()
      ensures level.head == At(level.nodes, 0) && FilledQty(PlainAll([])) == 0 && Aligned([], level.nodes)
      ensures PlainAll([]) + Fills(taker, limit, Makers(level.nodes[0..]), qty) == Fills(taker, limit, Makers(level.nodes), qty)
    {
      assert level.nodes[0..] == level.nodes;
      hide Linked;
    }

    /** One order of the level is taken: what it gives, and what is left to take. */
    lemma {:induction false} TakeStep(level: PriceLevel, limit: Limit, ms: seq<V1Match>, remaining: int, m: V1Match)
      requires level.Valid() && Wanting(level.nodes) && Crosses(taker, limit, level.price) && remaining > 0
      requires |ms| < |level.nodes| && Aligned(ms, level.nodes)
      requires var n := level.nodes[|ms|];
               m == V1Match(n.orderId, n.userId, n.remainingQty, n.decimalPrice, if remaining <= n.remainingQty then remaining else n.remainingQty, n)
      ensures var c, k := level.nodes, |ms|;
              && PlainAll(ms + [m]) + Fills(taker, limit, Makers(c[k + 1..]), remaining - m.quantity)
                 == PlainAll(ms) + Fills(taker, limit, Makers(c[k..]), remaining)
              && FilledQty(PlainAll(ms + [m])) == FilledQty(PlainAll(ms)) + m.quantity && 0 < m.quantity <= remaining
              && Aligned(ms + [m], c) && c[k].next == At(c, k + 1)
    {
      hide Linked, Fills, FilledQty, Makers, PlainAll, Plain, Crosses;
      var c, k := level.nodes, |ms|;
      NextOf(level, k);
      assert c[k..][0] == c[k] && c[k..][1..] == c[k + 1..];
      TakeOne(taker, limit, c[k..], remaining, m);
      PlainAppend(ms, m);
      Assoc(PlainAll(ms), [Plain(m)], Fills(taker, limit, Makers(c[k + 1..]), remaining - m.quantity));
    }

    lemma {:induction false} TakeEnds(limit: Limit, c: seq<OrderNode>, ms: seq<V1Match>, remaining: int)
      requires |ms| <= |c| && (At(c, |ms|) == null || remaining == 0)
      ensures Fills(taker, limit, Makers(c[|ms|..]), remaining) == [] && PlainAll(ms) + [] == PlainAll(ms)
      ensures remaining != 0 ==> |ms| == |c|
    {
      NoMore(taker, limit, c[|ms|..], remaining);
      hide Fills, Makers, PlainAll;
    }

    static lemma {:induction false} NothingFilled()
      ensures FilledQty([]) == 0 && PlainAll([]) == []
    {
    }

    static lemma {:induction false} TakeOne(taker: Side, limit: Limit, c: seq<OrderNode>, qty: int, m: V1Match)
      requires c != [] && qty > 0 && c[0].remainingQty > 0 && Crosses(taker, limit, c[0].price)
      requires m.makerNode == c[0] && m.makerOrderId == c[0].orderId && m.makerUserId == c[0].userId
      requires m.makerRemainingBefore == c[0].remainingQty && m.quantity == MinQty(qty, c[0].remainingQty)
      ensures Fills(taker, limit, Makers(c), qty) == [Plain(m)] + Fills(taker, limit, Makers(c[1..]), qty - m.quantity)
    {
      assert Makers(c)[1..] == Makers(c[1..]);
    }

    static lemma {:induction false} PlainAppend(ms: seq<V1Match>, m: V1Match)
      ensures PlainAll(ms + [m]) == PlainAll(ms) + [Plain(m)]
      ensures FilledQty(PlainAll(ms + [m])) == FilledQty(PlainAll(ms)) + m.quantity
    {
      var r := ms + [m];
      assert forall i :: 0 <= i < |r| ==> PlainAll(r)[i] == Plain(r[i]);
      assert PlainAll(r) == PlainAll(ms) + [Plain(m)];
      FilledAppend(PlainAll(ms), Plain(m));
      hide FilledQty;
    }

    static lemma {:induction false} NextOf(level: PriceLevel, k: nat)
      requires level.Valid() && k < |level.nodes|
      ensures level.nodes[k].next == At(level.nodes, k + 1) && level.nodes[k].price == level.price
    {
    }

    static lemma {:induction false} NoMore(taker: Side, limit: Limit, c: seq<OrderNode>, qty: int)
      requires c == [] || qty == 0
      ensures Fills(taker, limit, Makers(c), qty) == []
    {
    }

    // ---- the leaves of the index

    /** What a match would come to, read off the index and the queue before it begins. */
    ghost function Course(limit: int, qty: int): W.Course
      requires Valid()
      reads this, priceTree, priceTree.repr, Levels(), Orders()
    {
      TreeIsValid();
      W.CourseOf(taker, priceTree.tree, priceTree.order, Queue(), limit, qty)
    }

    /** The walk of a match comes to an end, and to every order once and in turn. */
    ghost predicate Clear(limit: int, qty: int)
      requires Valid()
      reads this, priceTree, priceTree.repr, Levels(), Orders()
    {
      Course(limit, qty).ends && Course(limit, qty).straight
    }

    lemma {:induction false} TreeIsValid()
      requires Shaped()
      ensures priceTree.Valid() && priceTree.order >= 2 && R.Good(priceTree.tree, priceTree.order)
    {
    }

    /** The leaf leads from this position on to levels of the book. */
    ghost predicate Known(leaf: N.Node<PriceLevel>, from: nat)
      reads this`priceMap, leaf
    {
      && |leaf.keys| == |leaf.values|
      && forall j :: from <= j < |leaf.keys| ==> leaf.keys[j] in priceMap && priceMap[leaf.keys[j]] == leaf.values[j]
    }

    /** The leaves in order hold the keys of the tree and lead to the levels of the book. */
    lemma {:induction false} ChainKnown()
      requires Shaped()
      ensures var c, ks := priceTree.LeafChain(), B.KeysOf(priceTree.tree);
              && |c| == |ks| && (forall n :: n in c ==> n in priceTree.repr)
              && (forall i :: 0 <= i < |c| ==> c[i].keys == ks[i] && Known(c[i], 0))
              && (forall i :: 0 <= i < |c| ==> c[i].next == N.At(c, i + 1) && c[i].prev == N.At(c, i - 1))
    {
      priceTree.ChainKeys();
      hide T.BPlusTree.Valid, T.BPlusTree.LeafChain, B.KeysOf, AllValid, IndexedBy;
      var c := priceTree.LeafChain();
      forall i, j | 0 <= i < |c| && 0 <= j < |c[i].keys|
        ensures c[i].keys[j] in priceMap && j < |c[i].values| && priceMap[c[i].keys[j]] == c[i].values[j] {
        assert priceTree.EntryIn(c[i], j);
      }
    }

    /** A level that is known is in its place. */
    lemma {:induction false} KnownLevel(leaf: N.Node<PriceLevel>, keyIdx: nat)
      requires Valid() && Known(leaf, keyIdx) && keyIdx < |leaf.keys|
      ensures var level := leaf.values[keyIdx];
              && level in ladder && level.price == leaf.keys[keyIdx] && (level.IsEmpty() <==> level.nodes == [])
              && var ms := W.At(Makers(NodesOf(ladder)), level.price); ms == Makers(level.nodes) && (ms == [] <==> level.nodes == [])
    {
      hide TreeOk, NodesOf, CountEmpty, Leads, Wanting, Makers;
      var level := leaf.values[keyIdx];
      MapKnows(leaf.keys[keyIdx]);
      QueueLists(taker, ladder);
      EmptyIn(level);
      NoMakers(level.nodes);
    }

    lemma {:induction false} MapKnows(p: int)
      requires Indexed() && p in priceMap
      ensures priceMap[p] in ladder && priceMap[p].price == p
    {
    }

    lemma {:induction false} LevelWanting(level: PriceLevel)
      requires Valid() && level in ladder
      ensures level.Valid() && Wanting(level.nodes)
      ensures forall n :: n in level.nodes ==> n in NodesOf(ladder) && n.price == level.price
    {
      assert level.Valid();
      forall n | n in level.nodes ensures n in NodesOf(ladder) {
        InNodes(ladder, n);
      }
    }

    /** The matches are with orders of this book, at their own prices, within the limit. */
    ghost predicate Owned(ms: seq<V1Match>, limit: int)
      reads this`ladder, Levels()`nodes
    {
      forall m :: m in ms ==>
        && m.makerNode in NodesOf(ladder) && m.makerOrderId == m.makerNode.orderId && m.price == m.makerNode.decimalPrice
        && Crosses(taker, Some(limit), m.makerNode.price)
    }

    /** Drops an empty level the walk has come to. */
    method DropInWalk(level: PriceLevel, ghost limit: int, ghost results: seq<V1Match>)
      requires Valid() && level in ladder && level.nodes == [] && Owned(results, limit)
      modifies this`priceMap, this`priceKeys, this`ladder, this`emptyLevelCount, priceTree, priceTree.repr
      ensures Valid() && Owned(results, limit) && Queue() == old(Queue()) && NodesOf(ladder) == old(NodesOf(ladder))
      ensures Levels() <= old(Levels()) && |ladder| < |old(ladder)| && priceTree.repr == old(priceTree.repr)
      ensures priceMap == old(priceMap) - {level.price} && old(priceTree.Valid()) && KeyLeft(level.price)
      ensures Slims()
    {
      hide Indexed, TreeOk, AllValid, CountEmpty, Leads, Wanting, NodesOf, Makers, KeyLeft;
      ghost var i := PlaceOf(taker, ladder, level.price);
      TreeIsValid();
      PlaceIn(level);
      OrdersAreNodes();
      CleanupLevel(level, i);
      OrdersAreNodes();
    }

    // ---- upwards

    /** Where a walk upwards stands: at position k of leaf n; at that of a leaf merged into leaf n since; or past a leaf, with
        leaf n next. */
    ghost predicate AtUp(leaf: N.Node<PriceLevel>, keyIdx: nat, stand: Stand, n: nat, k: nat)
      reads this`priceMap, priceTree, leaf
    {
      var c, ks := priceTree.LeafChain(), B.KeysOf(priceTree.tree);
      && |c| == |ks| && n <= |c| && Known(leaf, keyIdx)
      && match stand
         case On => n < |c| && leaf == c[n] && keyIdx == k <= |leaf.keys|
         case Off => n < |c| && k <= |ks[n]| && keyIdx <= |leaf.keys| && leaf.keys[keyIdx..] == ks[n][k..] && leaf.next == N.At(c, n + 1)
         case Past => k == 0 && keyIdx >= |leaf.keys| && leaf.next == N.At(c, n)
    }

    /** What has been given and what the rest of the walk gives make up fs. */
    ghost predicate LeadsUp(q: seq<Maker>, stand: Stand, n: nat, k: nat, limit: int, remaining: int, given: seq<MatchResult>,
                            fs: seq<MatchResult>)
      reads priceTree
    {
      && priceTree.order >= 2 && R.Good(priceTree.tree, priceTree.order)
      && var c := W.WalkUp(priceTree.tree, priceTree.order, q, stand == Off, n, k, limit, remaining); c.ends && given + c.fills == fs
    }

    /** The next key of the leaf is the next key of the walk. */
    lemma {:induction false} LooksUp(leaf: N.Node<PriceLevel>, keyIdx: nat, stand: Stand, n: nat, k: nat)
      requires Valid() && AtUp(leaf, keyIdx, stand, n, k) && keyIdx < |leaf.keys|
      ensures var ks := B.KeysOf(priceTree.tree);
              && stand != Past && n < |ks| && k < |ks[n]| && ks[n][k] == leaf.keys[keyIdx] && AtUp(leaf, keyIdx + 1, stand, n, k + 1)
              && Known(leaf, keyIdx) && (stand == On ==> k == keyIdx)
    {
      ChainKnown();
      hide Shaped, T.BPlusTree.LeafChain, B.KeysOf;
      var ks := B.KeysOf(priceTree.tree);
      if stand == Off {
        TailsGo(leaf.keys, keyIdx, ks[n], k);
      }
    }

    static lemma {:induction false} TailsGo(a: seq<int>, i: nat, b: seq<int>, k: nat)
      requires i < |a| && k <= |b| && a[i..] == b[k..]
      ensures k < |b| && a[i] == b[k] && a[i + 1..] == b[k + 1..]
    {
      assert a[i..][0] == a[i] && a[i..][1..] == a[i + 1..];
      assert b[k..][0] == b[k] && b[k..][1..] == b[k + 1..];
    }

    /** Past the last key of the leaf the walk goes on at the start of the next. */
    lemma {:induction false} PassesUp(leaf: N.Node<PriceLevel>, keyIdx: nat, stand: Stand, n: nat, k: nat, q: seq<Maker>, limit: int,
                                      remaining: int, given: seq<MatchResult>, fs: seq<MatchResult>)
      requires Valid() && AtUp(leaf, keyIdx, stand, n, k) && keyIdx >= |leaf.keys| && remaining > 0
      requires LeadsUp(q, stand, n, k, limit, remaining, given, fs)
      ensures var m := if stand == Past then n else n + 1;
              && m <= |priceTree.LeafChain()| == |B.KeysOf(priceTree.tree)| && leaf.next == N.At(priceTree.LeafChain(), m)
              && LeadsUp(q, On, m, 0, limit, remaining, given, fs)
    {
      ChainKnown();
      hide Shaped, T.BPlusTree.LeafChain, B.KeysOf, R.Good;
    }

    lemma {:induction false} GivesUp(q: seq<Maker>, stand: Stand, n: nat, k: nat, limit: int, remaining: int, given: seq<MatchResult>,
                                     fs: seq<MatchResult>)
      requires LeadsUp(q, stand, n, k, limit, remaining, given, fs) && remaining > 0
      requires n < |B.KeysOf(priceTree.tree)| && k < |B.KeysOf(priceTree.tree)[n]|
      ensures var key := B.KeysOf(priceTree.tree)[n][k]; var gs := Fills(Buy, Some(limit), W.At(q, key), remaining);
              if W.At(q, key) == [] then stand != Off
              else if key > limit then given == fs
              else LeadsUp(q, stand, n, k + 1, limit, remaining - FilledQty(gs), given + gs, fs)
    {
      hide R.Good, B.KeysOf, W.DropUp, Fills, FilledQty, W.At;
      var key := B.KeysOf(priceTree.tree)[n][k];
      if W.At(q, key) != [] && key <= limit {
        var gs := Fills(Buy, Some(limit), W.At(q, key), remaining);
        Assoc(given, gs, W.WalkUp(priceTree.tree, priceTree.order, q, stand == Off, n, k + 1, limit, remaining - FilledQty(gs)).fills);
      }
    }

    /** Drops the empty level at position keyIdx of leaf n. */
    method DropUp(level: PriceLevel, leaf: N.Node<PriceLevel>, ghost keyIdx: nat, ghost q: seq<Maker>, ghost n: nat, ghost limit: int,
                  ghost remaining: int, ghost results: seq<V1Match>, ghost fs: seq<MatchResult>)
      returns (ghost stand: Stand, ghost n': nat, ghost k': nat)
      requires Valid() && q == Makers(NodesOf(ladder)) && Owned(results, limit) && remaining > 0
      requires AtUp(leaf, keyIdx, On, n, keyIdx) && keyIdx < |leaf.keys| && level == leaf.values[keyIdx] && level.nodes == []
      requires LeadsUp(q, On, n, keyIdx, limit, remaining, PlainAll(results), fs)
      modifies this`priceMap, this`priceKeys, this`ladder, this`emptyLevelCount, priceTree, priceTree.repr
      ensures Valid() && Owned(results, limit) && Makers(NodesOf(ladder)) == q && NodesOf(ladder) == old(NodesOf(ladder))
      ensures Levels() <= old(Levels()) && |ladder| < |old(ladder)| && priceTree.repr == old(priceTree.repr)
      ensures AtUp(leaf, keyIdx, stand, n', k') && LeadsUp(q, stand, n', k', limit, remaining, PlainAll(results), fs)
      ensures Slims()
    {
      hide Shaped, CountEmpty, Leads, Wanting, NodesOf, Makers, Owned, PlainAll, T.BPlusTree.Valid, R.Good, B.KeysOf,
        B.FixOf, B.PlaceOf, R.After, T.BPlusTree.LeafChain;
      hide M.Without, B.Shorter, W.WalkUp, W.At, M.LowerBound;
      ghost var c, t, keys, values, m := priceTree.LeafChain(), priceTree.tree, leaf.keys, leaf.values, priceMap;
      TreeIsValid();
      ChainKnown();
      KnownLevel(leaf, keyIdx);
      W.KeyGoes(t, priceTree.order, n, keyIdx);
      LoneLeaf(level.price);
      DropInWalk(level, limit, results);
      TreeIsValid();
      stand, n', k' := StandsUp(leaf, keyIdx, c, t, keys, values, m, n);
      LedUp(t, q, n, keyIdx, limit, remaining, PlainAll(results), fs, stand, n', k');
    }

    /** Where that leaves the walk. */
    lemma {:induction false} StandsUp(leaf: N.Node<PriceLevel>, keyIdx: nat, c: seq<N.Node<PriceLevel>>, t: R.Root<PriceLevel>,
                                      keys: seq<int>, values: seq<PriceLevel>, m: map<int, PriceLevel>, n: nat)
      returns (stand: Stand, n': nat, k': nat)
      requires Shaped() && priceTree.order >= 2 && R.Good(t, priceTree.order)
      requires n < |c| == |B.KeysOf(t)| && c[n] == leaf && B.KeysOf(t)[n] == keys && keyIdx < |keys| == |values|
      requires priceTree.tree == R.After(t, R.DelOp(keys[keyIdx]), priceTree.order) && (priceTree.tree.None? ==> |c| == 1)
      requires var fix := B.FixOf(t, keys[keyIdx], priceTree.order);
               && priceTree.LeafChain() == (if priceTree.tree.None? then [] else B.Shorter(c, n, fix))
               && (priceTree.tree.None? || fix == B.IntoLeft ==>
                     leaf.keys == M.Without(keys, keyIdx) && leaf.values == M.Without(values, keyIdx) && leaf.next == N.At(c, n + 1))
      requires (forall j :: 0 <= j < |keys| ==> keys[j] in m && m[keys[j]] == values[j]) && priceMap == m - {keys[keyIdx]}
      ensures AtUp(leaf, keyIdx, stand, n', k')
      ensures var fix := B.FixOf(t, keys[keyIdx], priceTree.order);
              if priceTree.tree.None? then stand == Past && n' == k' == 0
              else if fix == B.IntoLeft then stand == Off && 0 < n == n' + 1 && k' == |B.KeysOf(t)[n - 1]| + keyIdx
              else stand == On && n' == n && k' == keyIdx
    {
      hide Shaped, T.BPlusTree.LeafChain, R.Good, R.After, B.KeysOf, B.FixOf, M.Without, AtUp, Known, B.Moved, B.Shorter,
        B.Repairable, StrictlySorted;
      W.KeyGoes(t, priceTree.order, n, keyIdx);
      ChainKnown();
      var key, fix, ks := keys[keyIdx], B.FixOf(t, keys[keyIdx], priceTree.order), B.KeysOf(t);
      ShorterAt(c, n, fix);
      if priceTree.tree.None? {
        OnlyKey(ks, n);
        KnownLess(leaf, keys, values, keyIdx, m);
        NoChain();
        PastLeaf(leaf, keyIdx, 0);
        stand, n', k' := Past, 0, 0;
      } else {
        W.MovedPlace(ks, n, keyIdx, fix);
        if fix == B.IntoLeft {
          WithoutBehind(ks[n - 1], keys, keyIdx);
          KnownLess(leaf, keys, values, keyIdx, m);
          OffLeaf(leaf, keyIdx, n - 1, |ks[n - 1]| + keyIdx);
          stand, n', k' := Off, n - 1, |ks[n - 1]| + keyIdx;
        } else {
          OnLeaf(leaf, keyIdx, n);
          stand, n', k' := On, n, keyIdx;
        }
      }
    }

    lemma {:induction false} NoChain()
      requires Shaped() && priceTree.tree.None?
      ensures priceTree.LeafChain() == [] && B.KeysOf(priceTree.tree) == []
    {
      ChainKnown();
      hide Shaped;
    }

    lemma {:induction false} KnownLess(leaf: N.Node<PriceLevel>, keys: seq<int>, values: seq<PriceLevel>, k: nat, m: map<int, PriceLevel>)
      requires StrictlySorted(keys) && |keys| == |values| && k < |keys|
      requires (forall j :: 0 <= j < |keys| ==> keys[j] in m && m[keys[j]] == values[j]) && priceMap == m - {keys[k]}
      requires leaf.keys == M.Without(keys, k) && leaf.values == M.Without(values, k)
      ensures Known(leaf, k)
    {
      KnownWithout(keys, values, k, m);
      hide M.Without;
    }

    lemma {:induction false} PastLeaf(leaf: N.Node<PriceLevel>, keyIdx: nat, n: nat)
      requires var c, ks := priceTree.LeafChain(), B.KeysOf(priceTree.tree);
               |c| == |ks| && n <= |c| && keyIdx >= |leaf.keys| && leaf.next == N.At(c, n) && Known(leaf, keyIdx)
      ensures AtUp(leaf, keyIdx, Past, n, 0)
    {
    }

    lemma {:induction false} OffLeaf(leaf: N.Node<PriceLevel>, keyIdx: nat, n: nat, k: nat)
      requires var c, ks := priceTree.LeafChain(), B.KeysOf(priceTree.tree);
               && |c| == |ks| && n < |c| && k <= |ks[n]| && keyIdx <= |leaf.keys| && leaf.keys[keyIdx..] == ks[n][k..]
               && leaf.next == N.At(c, n + 1) && Known(leaf, keyIdx)
      ensures AtUp(leaf, keyIdx, Off, n, k)
    {
    }

    lemma {:induction false} OnLeaf(leaf: N.Node<PriceLevel>, k: nat, n: nat)
      requires Shaped() && n < |priceTree.LeafChain()| && leaf == priceTree.LeafChain()[n] && k <= |leaf.keys|
      ensures AtUp(leaf, k, On, n, k)
    {
      ChainKnown();
      hide Shaped, T.BPlusTree.LeafChain, B.KeysOf;
    }

    /** The leaves around the one that was repaired. */
    static lemma {:induction false} ShorterAt(c: seq<N.Node<PriceLevel>>, n: nat, fix: B.Repair)
      requires n < |c|
      ensures var d := B.Shorter(c, n, fix);
              && (fix == B.IntoLeft ==> |d| == |c| - 1 && N.At(d, n) == N.At(c, n + 1) && N.At(d, n - 2) == N.At(c, n - 2)
                                        && N.At(d, n - 1) == N.At(c, n - 1))
              && (fix != B.IntoLeft ==> n < |d| && d[n] == c[n])
    {
    }

    static lemma {:induction false} KnownWithout(keys: seq<int>, values: seq<PriceLevel>, k: nat, m: map<int, PriceLevel>)
      requires StrictlySorted(keys) && |keys| == |values| && k < |keys|
      requires forall j :: 0 <= j < |keys| ==> keys[j] in m && m[keys[j]] == values[j]
      ensures var ks, vs, r := M.Without(keys, k), M.Without(values, k), m - {keys[k]};
              |ks| == |vs| && forall j :: 0 <= j < |ks| ==> ks[j] in r && r[ks[j]] == vs[j]
    {
      var ks, vs := M.Without(keys, k), M.Without(values, k);
      forall j | 0 <= j < |ks| ensures ks[j] in m && ks[j] != keys[k] && m[ks[j]] == vs[j] {
        var i := if j < k then j else j + 1;
        assert ks[j] == keys[i] && vs[j] == values[i];
      }
    }

    static lemma {:induction false} WithoutBehind(l: seq<int>, keys: seq<int>, k: nat)
      requires k < |keys|
      ensures (l + M.Without(keys, k))[|l| + k..] == M.Without(keys, k)[k..]
    {
    }

    static lemma {:induction false} OnlyKey(ks: seq<seq<int>>, n: nat)
      requires |ks| == 1 && |B.Strung(ks)| == 1 && n < |ks|
      ensures n == 0 && |ks[0]| == 1
    {
      W.StrungOne(ks[0]);
      assert ks == [ks[0]];
    }

    /** What the rest of the walk gives is what it would have given. */
    lemma {:induction false} LedUp(t: R.Root<PriceLevel>, q: seq<Maker>, n: nat, k: nat, limit: int, remaining: int, given: seq<MatchResult>,
                                   fs: seq<MatchResult>, stand: Stand, n': nat, k': nat)
      requires priceTree.order >= 2 && R.Good(t, priceTree.order) && n < |B.KeysOf(t)| && k < |B.KeysOf(t)[n]| && remaining > 0
      requires var key := B.KeysOf(t)[n][k]; var fix := B.FixOf(t, key, priceTree.order);
               && W.At(q, key) == [] && priceTree.tree == R.After(t, R.DelOp(key), priceTree.order)
               && if priceTree.tree.None? then stand == Past && n' == k' == 0
                  else if fix == B.IntoLeft then stand == Off && 0 < n == n' + 1 && k' == |B.KeysOf(t)[n - 1]| + k
                  else stand == On && n' == n && k' == k
      requires var c := W.WalkUp(t, priceTree.order, q, false, n, k, limit, remaining); c.ends && given + c.fills == fs
      ensures LeadsUp(q, stand, n', k', limit, remaining, given, fs)
    {
      hide R.Good, R.After, B.FixOf, W.At;
      if priceTree.tree.None? {
        assert B.KeysOf(priceTree.tree) == [];
      } else {
        hide B.KeysOf;
      }
    }

    /** Walks one leaf, left to right. Stops for good at a level beyond the limit. */
    method ScanUp(leaf: N.Node<PriceLevel>, incomingPrice: int, results0: seq<V1Match>, remaining0: int, ghost q: seq<Maker>,
                  ghost n0: nat, ghost fs: seq<MatchResult>)
      returns (results: seq<V1Match>, remaining: int, beyond: bool, ghost n: nat)
      requires Valid() && q == Makers(NodesOf(ladder)) && taker == Buy && remaining0 > 0 && Owned(results0, incomingPrice)
      requires AtUp(leaf, 0, On, n0, 0) && LeadsUp(q, On, n0, 0, incomingPrice, remaining0, PlainAll(results0), fs)
      modifies this`priceMap, this`priceKeys, this`ladder, this`emptyLevelCount, priceTree, priceTree.repr
      ensures Valid() && Makers(NodesOf(ladder)) == q && NodesOf(ladder) == old(NodesOf(ladder)) && priceTree.repr == old(priceTree.repr)
      ensures Levels() <= old(Levels()) && remaining >= 0 && Owned(results, incomingPrice)
      ensures if beyond || remaining == 0 then PlainAll(results) == fs
              else n <= |priceTree.LeafChain()| == |B.KeysOf(priceTree.tree)| && leaf.next == N.At(priceTree.LeafChain(), n)
                   && LeadsUp(q, On, n, 0, incomingPrice, remaining, PlainAll(results), fs)
      ensures |ladder| < |old(ladder)| || (|ladder| == |old(ladder)| && n == n0 + 1 && priceTree.tree == old(priceTree.tree)) || beyond || remaining == 0
      ensures Slims()
    {
      hide Valid, NodesOf, Makers, Owned, PlainAll, LeadsUp, AtUp, T.BPlusTree.LeafChain, B.KeysOf, Fills, FilledQty, IsFlat;
      var keyIdx: nat := 0;
      ghost var stand: Stand, k: nat := On, 0;
      n, results, remaining := n0, results0, remaining0;
      while keyIdx < |leaf.keys| && remaining != 0
        invariant Valid() && Makers(NodesOf(ladder)) == q && NodesOf(ladder) == old(NodesOf(ladder)) && priceTree.repr == old(priceTree.repr)
        invariant Slims()
        invariant Levels() <= old(Levels()) && remaining >= 0 && Owned(results, incomingPrice)
        invariant AtUp(leaf, keyIdx, stand, n, k) && LeadsUp(q, stand, n, k, incomingPrice, remaining, PlainAll(results), fs)
        invariant |ladder| < |old(ladder)| || (|ladder| == |old(ladder)| && stand == On && n == n0 && priceTree.tree == old(priceTree.tree))
        decreases |ladder|, |leaf.keys| - keyIdx
      {
        LooksUp(leaf, keyIdx, stand, n, k);
        KnownLevel(leaf, keyIdx);
        GivesUp(q, stand, n, k, incomingPrice, remaining, PlainAll(results), fs);
        var level := leaf.values[keyIdx];
        if level.IsEmpty() {
          stand, n, k := DropUp(level, leaf, keyIdx, q, n, incomingPrice, remaining, results, fs);
          continue;
        }
        if level.price > incomingPrice {
          beyond := true;
          return;
        }
        remaining, results := Visit(level, incomingPrice, remaining, results);
        keyIdx, k := keyIdx + 1, k + 1;
      }
      beyond := false;
      if remaining == 0 {
        WalkOver(q, stand, n, k, incomingPrice, PlainAll(results), fs);
      } else {
        PassesUp(leaf, keyIdx, stand, n, k, q, incomingPrice, remaining, PlainAll(results), fs);
        n := if stand == Past then n else n + 1;
      }
    }

    lemma {:induction false} WalkOver(q: seq<Maker>, stand: Stand, n: nat, k: nat, limit: int, given: seq<MatchResult>, fs: seq<MatchResult>)
      requires LeadsUp(q, stand, n, k, limit, 0, given, fs)
      ensures given == fs
    {
    }

    /** Takes from a level that crosses. */
    method Visit(level: PriceLevel, incomingPrice: int, remaining0: int, results0: seq<V1Match>)
      returns (remaining: int, results: seq<V1Match>)
      requires Valid() && level in ladder && remaining0 >= 0 && Crosses(taker, Some(incomingPrice), level.price) && Owned(results0, incomingPrice)
      ensures var gs := Fills(taker, Some(incomingPrice), Makers(level.nodes), remaining0);
              PlainAll(results) == PlainAll(results0) + gs && 0 <= remaining == remaining0 - FilledQty(gs)
      ensures Valid() && Owned(results, incomingPrice) && NodesOf(ladder) == old(NodesOf(ladder))
      ensures Makers(NodesOf(ladder)) == old(Makers(NodesOf(ladder)))
    {
      hide Indexed, TreeOk, AllValid, Wanting, NodesOf, Makers, Crosses, PlainAll, Fills, FilledQty, Leads, CountEmpty,
        Aligned, PriceLevel.Valid;
      LevelWanting(level);
      var ms;
      remaining, ms := TakeLevel(level, Some(incomingPrice), remaining0);
      results := results0 + ms;
      PlainJoin(results0, ms);
      OwnedJoin(results0, ms, level, incomingPrice);
    }

    lemma {:induction false} OwnedJoin(a: seq<V1Match>, b: seq<V1Match>, level: PriceLevel, limit: int)
      requires Owned(a, limit) && Crosses(taker, Some(limit), level.price)
      requires forall n :: n in level.nodes ==> n in NodesOf(ladder) && n.price == level.price
      requires forall m :: m in b ==> m.price == m.makerNode.decimalPrice && m.makerOrderId == m.makerNode.orderId && m.makerNode in level.nodes
      ensures Owned(a + b, limit)
    {
      hide NodesOf, Crosses;
    }

    static lemma {:induction false} PlainJoin(a: seq<V1Match>, b: seq<V1Match>)
      ensures PlainAll(a + b) == PlainAll(a) + PlainAll(b)
    {
    }

    /** Walks the leaves upwards from the best ask. */
    method MatchAscending(incomingPrice: int, incomingQty: int) returns (results: seq<V1Match>)
      requires Valid() && taker == Buy && incomingQty >= 0 && Course(incomingPrice, incomingQty).ends
      modifies this`priceMap, this`priceKeys, this`ladder, this`emptyLevelCount, priceTree, priceTree.repr
      ensures Valid() && NodesOf(ladder) == old(NodesOf(ladder)) && priceTree.repr == old(priceTree.repr)
      ensures Queue() == old(Queue()) && Levels() <= old(Levels())
      ensures PlainAll(results) == old(Course(incomingPrice, incomingQty)).fills && Owned(results, incomingPrice)
      ensures Slims()
    {
      hide Shaped, CountEmpty, Leads, Wanting, NodesOf, Makers, Owned, LeadsUp, AtUp, T.BPlusTree.LeafChain, B.KeysOf, Fills,
        FilledQty, PlainAll;
      ghost var n: nat := 0;
      ghost var q, fs := Makers(NodesOf(ladder)), Course(incomingPrice, incomingQty).fills;
      UpStarts(incomingPrice, incomingQty);
      var leaf := FirstLeaf();
      var remaining := incomingQty;
      results := [];
      while leaf != null && remaining != 0
        invariant Valid() && Makers(NodesOf(ladder)) == q && NodesOf(ladder) == old(NodesOf(ladder)) && priceTree.repr == old(priceTree.repr)
        invariant Slims()
        invariant Levels() <= old(Levels()) && remaining >= 0 && Owned(results, incomingPrice)
        invariant if remaining == 0 then PlainAll(results) == fs
                  else n <= |priceTree.LeafChain()| == |B.KeysOf(priceTree.tree)| && leaf == N.At(priceTree.LeafChain(), n)
                       && LeadsUp(q, On, n, 0, incomingPrice, remaining, PlainAll(results), fs)
        decreases if remaining != 0 then 1 else 0, |ladder|, |B.KeysOf(priceTree.tree)| - n
      {
        var beyond;
        StartsLeaf(leaf, n);
        results, remaining, beyond, n := ScanUp(leaf, incomingPrice, results, remaining, q, n, fs);
        if beyond { return; }
        leaf := leaf.next;
      }
      if remaining != 0 {
        NoLeafLeft(q, n, incomingPrice, remaining, PlainAll(results), fs);
      }
    }

    /** An index that loses its last key was a single leaf. */
    lemma {:induction false} LoneLeaf(key: int)
      requires priceTree.Valid() && priceTree.tree.Some? && R.Good(priceTree.tree, priceTree.order)
      ensures R.After(priceTree.tree, R.DelOp(key), priceTree.order).None? ==> |B.KeysOf(priceTree.tree)| == 1
    {
      if R.After(priceTree.tree, R.DelOp(key), priceTree.order).None? {
        S.OnlyALeafVanishes(priceTree.tree, key, priceTree.order);
      }
      hide R.Good, T.BPlusTree.Holds, R.After;
    }

    /** Where a walk begins; looking for it changes nothing. */
    method FirstLeaf() returns (leaf: N.Node?<PriceLevel>)
      requires Valid()
      ensures leaf == N.At(priceTree.LeafChain(), 0)
      ensures Valid() && NodesOf(ladder) == old(NodesOf(ladder)) && Makers(NodesOf(ladder)) == old(Makers(NodesOf(ladder)))
    {
      hide Indexed, AllValid, NodesOf, Makers, CountEmpty, Leads, Wanting, T.BPlusTree.Valid, T.BPlusTree.Entries;
      leaf := priceTree.MinLeaf();
    }

    method LastLeaf() returns (leaf: N.Node?<PriceLevel>)
      requires Valid()
      ensures leaf == N.At(priceTree.LeafChain(), |priceTree.LeafChain()| - 1)
      ensures Valid() && NodesOf(ladder) == old(NodesOf(ladder)) && Makers(NodesOf(ladder)) == old(Makers(NodesOf(ladder)))
    {
      hide Indexed, AllValid, NodesOf, Makers, CountEmpty, Leads, Wanting, T.BPlusTree.Valid, T.BPlusTree.Entries;
      leaf := priceTree.MaxLeaf();
    }

    lemma {:induction false} UpStarts(limit: int, qty: int)
      requires Valid() && taker == Buy
      ensures LeadsUp(Makers(NodesOf(ladder)), On, 0, 0, limit, qty, PlainAll([]), Course(limit, qty).fills) || !Course(limit, qty).ends
      ensures qty == 0 ==> Course(limit, qty).fills == [] == PlainAll([])
      ensures Owned([], limit) && |priceTree.LeafChain()| == |B.KeysOf(priceTree.tree)|
    {
      hide R.Good, B.KeysOf, Indexed, TreeOk, AllValid, W.WalkUp, T.BPlusTree.LeafChain, NodesOf, Makers, Leads, Wanting,
        CountEmpty, Known;
      TreeIsValid();
      ChainKnown();
      W.NothingGiven(priceTree.tree, priceTree.order, Makers(NodesOf(ladder)), limit);
      assert [] + Course(limit, qty).fills == Course(limit, qty).fills;
    }

    lemma {:induction false} StartsLeaf(leaf: N.Node<PriceLevel>, n: nat)
      requires Shaped() && leaf == N.At(priceTree.LeafChain(), n)
      ensures AtUp(leaf, 0, On, n, 0)
    {
      ChainKnown();
      hide Shaped, T.BPlusTree.LeafChain, B.KeysOf;
    }

    lemma {:induction false} NoLeafLeft(q: seq<Maker>, n: nat, limit: int, remaining: int, given: seq<MatchResult>, fs: seq<MatchResult>)
      requires LeadsUp(q, On, n, 0, limit, remaining, given, fs) && n <= |priceTree.LeafChain()| == |B.KeysOf(priceTree.tree)|
      requires N.At(priceTree.LeafChain(), n) == null
      ensures given == fs
    {
      hide B.KeysOf, T.BPlusTree.LeafChain, R.Good;
    }

    // ---- the same, downwards

    /** Where a walk downwards stands: with k keys to go in leaf n - 1, or past a leaf, with leaf n - 1 next. */
    ghost predicate AtDown(leaf: N.Node<PriceLevel>, keyIdx: int, past: bool, n: nat, k: nat)
      reads this`priceMap, priceTree, leaf
    {
      var c, ks := priceTree.LeafChain(), B.KeysOf(priceTree.tree);
      && |c| == |ks| && n <= |c|
      && if past then keyIdx < 0 && leaf.prev == N.At(c, n - 1) && k == (if n > 0 then |ks[n - 1]| else 0)
         else n > 0 && leaf == c[n - 1] && keyIdx == k - 1 < |leaf.keys|
    }

    ghost predicate LeadsDown(q: seq<Maker>, n: nat, k: nat, limit: int, remaining: int, given: seq<MatchResult>, fs: seq<MatchResult>)
      reads priceTree
    {
      && priceTree.order >= 2 && R.Good(priceTree.tree, priceTree.order)
      && var c := W.WalkDown(priceTree.tree, priceTree.order, q, n, k, limit, remaining); c.ends && given + c.fills == fs
    }

    lemma {:induction false} LooksDown(leaf: N.Node<PriceLevel>, keyIdx: nat, past: bool, n: nat, k: nat)
      requires Valid() && AtDown(leaf, keyIdx, past, n, k)
      ensures var ks := B.KeysOf(priceTree.tree);
              && !past && 0 < n <= |ks| && 0 < k <= |ks[n - 1]| && ks[n - 1] == leaf.keys && k - 1 == keyIdx
              && Known(leaf, 0) && keyIdx < |leaf.keys| && AtDown(leaf, keyIdx - 1, past, n, k - 1)
    {
      ChainKnown();
      hide Shaped, T.BPlusTree.LeafChain, B.KeysOf;
    }

    lemma {:induction false} PassesDown(leaf: N.Node<PriceLevel>, keyIdx: int, past: bool, n: nat, k: nat, q: seq<Maker>, limit: int,
                                        remaining: int, given: seq<MatchResult>, fs: seq<MatchResult>)
      requires Valid() && AtDown(leaf, keyIdx, past, n, k) && keyIdx < 0 && remaining > 0 && LeadsDown(q, n, k, limit, remaining, given, fs)
      ensures past || n > 0
      ensures var ks := B.KeysOf(priceTree.tree); var m: nat := if past then n else n - 1;
              && m <= |priceTree.LeafChain()| == |ks| && leaf.prev == N.At(priceTree.LeafChain(), m - 1)
              && LeadsDown(q, m, if m > 0 then |ks[m - 1]| else 0, limit, remaining, given, fs)
    {
      ChainKnown();
      hide Shaped, T.BPlusTree.LeafChain, B.KeysOf, R.Good, W.DropDown;
    }

    lemma {:induction false} GivesDown(q: seq<Maker>, n: nat, k: nat, limit: int, remaining: int, given: seq<MatchResult>, fs: seq<MatchResult>)
      requires LeadsDown(q, n, k, limit, remaining, given, fs) && remaining > 0
      requires 0 < n <= |B.KeysOf(priceTree.tree)| && 0 < k <= |B.KeysOf(priceTree.tree)[n - 1]|
      ensures var key := B.KeysOf(priceTree.tree)[n - 1][k - 1]; var gs := Fills(Sell, Some(limit), W.At(q, key), remaining);
              W.At(q, key) != [] ==>
                if key < limit then given == fs else LeadsDown(q, n, k - 1, limit, remaining - FilledQty(gs), given + gs, fs)
    {
      hide R.Good, B.KeysOf, W.DropDown, Fills, FilledQty, W.At;
      var key := B.KeysOf(priceTree.tree)[n - 1][k - 1];
      if W.At(q, key) != [] && key >= limit {
        var gs := Fills(Sell, Some(limit), W.At(q, key), remaining);
        Assoc(given, gs, W.WalkDown(priceTree.tree, priceTree.order, q, n, k - 1, limit, remaining - FilledQty(gs)).fills);
      }
    }

    /** Drops the empty level at position keyIdx of leaf n - 1. */
    method DropDown(level: PriceLevel, leaf: N.Node<PriceLevel>, ghost keyIdx: nat, ghost q: seq<Maker>, ghost n: nat, ghost limit: int,
                    ghost remaining: int, ghost results: seq<V1Match>, ghost fs: seq<MatchResult>)
      returns (ghost past: bool, ghost n': nat, ghost k': nat)
      requires Valid() && q == Makers(NodesOf(ladder)) && Owned(results, limit) && remaining > 0 && n > 0
      requires AtDown(leaf, keyIdx, false, n, keyIdx + 1) && Known(leaf, 0)
      requires keyIdx < |leaf.keys| && level == leaf.values[keyIdx] && level.nodes == []
      requires LeadsDown(q, n, keyIdx + 1, limit, remaining, PlainAll(results), fs)
      modifies this`priceMap, this`priceKeys, this`ladder, this`emptyLevelCount, priceTree, priceTree.repr
      ensures Valid() && Owned(results, limit) && Makers(NodesOf(ladder)) == q && NodesOf(ladder) == old(NodesOf(ladder))
      ensures Levels() <= old(Levels()) && |ladder| < |old(ladder)| && priceTree.repr == old(priceTree.repr)
      ensures AtDown(leaf, keyIdx - 1, past, n', k') && LeadsDown(q, n', k', limit, remaining, PlainAll(results), fs)
      ensures Slims()
    {
      hide Shaped, CountEmpty, Leads, Wanting, NodesOf, Makers, Owned, PlainAll, T.BPlusTree.Valid, R.Good, B.KeysOf,
        B.FixOf, B.PlaceOf, R.After, T.BPlusTree.LeafChain;
      ghost var c, t, keys := priceTree.LeafChain(), priceTree.tree, leaf.keys;
      TreeIsValid();
      ChainKnown();
      KnownLevel(leaf, keyIdx);
      W.KeyGoes(t, priceTree.order, n - 1, keyIdx);
      LoneLeaf(level.price);
      DropInWalk(level, limit, results);
      TreeIsValid();
      past, n', k' := StandsDown(leaf, keyIdx, c, t, keys, n, q, limit, remaining, PlainAll(results), fs);
    }

    lemma {:induction false} StandsDown(leaf: N.Node<PriceLevel>, keyIdx: nat, c: seq<N.Node<PriceLevel>>, t: R.Root<PriceLevel>,
                                        keys: seq<int>, n: nat, q: seq<Maker>, limit: int, remaining: int, given: seq<MatchResult>,
                                        fs: seq<MatchResult>)
      returns (past: bool, n': nat, k': nat)
      requires Shaped() && priceTree.order >= 2 && R.Good(t, priceTree.order) && remaining > 0
      requires 0 < n <= |c| == |B.KeysOf(t)| && c[n - 1] == leaf && B.KeysOf(t)[n - 1] == keys && keyIdx < |keys| && W.At(q, keys[keyIdx]) == []
      requires priceTree.tree == R.After(t, R.DelOp(keys[keyIdx]), priceTree.order) && (priceTree.tree.None? ==> |c| == 1)
      requires var fix := B.FixOf(t, keys[keyIdx], priceTree.order);
               && priceTree.LeafChain() == (if priceTree.tree.None? then [] else B.Shorter(c, n - 1, fix))
               && (priceTree.tree.None? || fix == B.IntoLeft ==> leaf.keys == M.Without(keys, keyIdx) && leaf.prev == N.At(c, n - 2))
      requires var d := W.WalkDown(t, priceTree.order, q, n, keyIdx + 1, limit, remaining); d.ends && given + d.fills == fs
      ensures AtDown(leaf, keyIdx - 1, past, n', k') && LeadsDown(q, n', k', limit, remaining, given, fs)
    {
      hide Shaped, T.BPlusTree.LeafChain, R.Good, R.After, B.KeysOf, B.FixOf, M.Without, W.At;
      W.KeyGoes(t, priceTree.order, n - 1, keyIdx);
      ChainKnown();
      var key, fix, ks := keys[keyIdx], B.FixOf(t, keys[keyIdx], priceTree.order), B.KeysOf(t);
      ShorterAt(c, n - 1, fix);
      if priceTree.tree.None? {
        OnlyKey(ks, n - 1);
        assert B.KeysOf(priceTree.tree) == [];
        past, n', k' := true, 0, 0;
      } else {
        W.MovedPlace(ks, n - 1, keyIdx, fix);
        if fix == B.IntoLeft {
          past, n', k' := true, n - 1, |ks[n - 2]|;
        } else {
          past, n', k' := false, n, keyIdx;
        }
      }
    }

    /** Walks one leaf, right to left. */
    method ScanDown(leaf: N.Node<PriceLevel>, incomingPrice: int, results0: seq<V1Match>, remaining0: int, ghost q: seq<Maker>,
                    ghost n0: nat, ghost fs: seq<MatchResult>)
      returns (results: seq<V1Match>, remaining: int, beyond: bool, ghost n: nat)
      requires Valid() && q == Makers(NodesOf(ladder)) && taker == Sell && remaining0 > 0 && Owned(results0, incomingPrice)
      requires n0 > 0 && AtDown(leaf, |leaf.keys| - 1, false, n0, |leaf.keys|)
      requires LeadsDown(q, n0, |leaf.keys|, incomingPrice, remaining0, PlainAll(results0), fs)
      modifies this`priceMap, this`priceKeys, this`ladder, this`emptyLevelCount, priceTree, priceTree.repr
      ensures Valid() && Makers(NodesOf(ladder)) == q && NodesOf(ladder) == old(NodesOf(ladder)) && priceTree.repr == old(priceTree.repr)
      ensures Levels() <= old(Levels()) && remaining >= 0 && Owned(results, incomingPrice)
      ensures if beyond || remaining == 0 then PlainAll(results) == fs
              else && n <= |priceTree.LeafChain()| == |B.KeysOf(priceTree.tree)| && leaf.prev == N.At(priceTree.LeafChain(), n - 1)
                   && LeadsDown(q, n, if n > 0 then |B.KeysOf(priceTree.tree)[n - 1]| else 0, incomingPrice, remaining, PlainAll(results), fs)
      ensures |ladder| < |old(ladder)| || (|ladder| == |old(ladder)| && n < n0) || beyond || remaining == 0
      ensures Slims()
    {
      hide Valid, NodesOf, Makers, Owned, PlainAll, LeadsDown, AtDown, T.BPlusTree.LeafChain, B.KeysOf, Fills, FilledQty;
      var keyIdx := |leaf.keys| - 1;
      ghost var past: bool, k: nat := false, |leaf.keys|;
      n, results, remaining := n0, results0, remaining0;
      while keyIdx >= 0 && remaining != 0
        invariant Valid() && Makers(NodesOf(ladder)) == q && NodesOf(ladder) == old(NodesOf(ladder)) && priceTree.repr == old(priceTree.repr)
        invariant Slims()
        invariant Levels() <= old(Levels()) && remaining >= 0 && Owned(results, incomingPrice)
        invariant AtDown(leaf, keyIdx, past, n, k) && LeadsDown(q, n, k, incomingPrice, remaining, PlainAll(results), fs)
        invariant |ladder| < |old(ladder)| || (|ladder| == |old(ladder)| && !past && n == n0 && n > 0)
        decreases keyIdx
      {
        LooksDown(leaf, keyIdx, past, n, k);
        KnownLevel(leaf, keyIdx);
        GivesDown(q, n, k, incomingPrice, remaining, PlainAll(results), fs);
        var level := leaf.values[keyIdx];
        if level.IsEmpty() {
          past, n, k := DropDown(level, leaf, keyIdx, q, n, incomingPrice, remaining, results, fs);
          keyIdx := keyIdx - 1;
          continue;
        }
        if level.price < incomingPrice {
          beyond := true;
          return;
        }
        remaining, results := Visit(level, incomingPrice, remaining, results);
        keyIdx, k := keyIdx - 1, k - 1;
      }
      beyond := false;
      if remaining == 0 {
        WalkDownOver(q, n, k, incomingPrice, PlainAll(results), fs);
      } else {
        PassesDown(leaf, keyIdx, past, n, k, q, incomingPrice, remaining, PlainAll(results), fs);
        n := if past then n else n - 1;
      }
    }

    lemma {:induction false} WalkDownOver(q: seq<Maker>, n: nat, k: nat, limit: int, given: seq<MatchResult>, fs: seq<MatchResult>)
      requires LeadsDown(q, n, k, limit, 0, given, fs)
      ensures given == fs
    {
    }

    /** Walks the leaves downwards from the best bid. */
    method MatchDescending(incomingPrice: int, incomingQty: int) returns (results: seq<V1Match>)
      requires Valid() && taker == Sell && incomingQty >= 0 && Course(incomingPrice, incomingQty).ends
      modifies this`priceMap, this`priceKeys, this`ladder, this`emptyLevelCount, priceTree, priceTree.repr
      ensures Valid() && NodesOf(ladder) == old(NodesOf(ladder)) && priceTree.repr == old(priceTree.repr)
      ensures Queue() == old(Queue()) && Levels() <= old(Levels())
      ensures PlainAll(results) == old(Course(incomingPrice, incomingQty)).fills && Owned(results, incomingPrice)
      ensures Slims()
    {
      hide Shaped, CountEmpty, Leads, Wanting, NodesOf, Makers, Owned, LeadsDown, AtDown, T.BPlusTree.LeafChain, B.KeysOf,
        Fills, FilledQty, PlainAll;
      ghost var n: nat := |priceTree.LeafChain()|;
      ghost var q, fs := Makers(NodesOf(ladder)), Course(incomingPrice, incomingQty).fills;
      DownStarts(incomingPrice, incomingQty);
      var leaf := LastLeaf();
      var remaining := incomingQty;
      results := [];
      while leaf != null && remaining != 0
        invariant Valid() && Makers(NodesOf(ladder)) == q && NodesOf(ladder) == old(NodesOf(ladder)) && priceTree.repr == old(priceTree.repr)
        invariant Slims()
        invariant Levels() <= old(Levels()) && remaining >= 0 && Owned(results, incomingPrice)
        invariant if remaining == 0 then PlainAll(results) == fs
                  else && n <= |priceTree.LeafChain()| == |B.KeysOf(priceTree.tree)| && leaf == N.At(priceTree.LeafChain(), n - 1)
                       && LeadsDown(q, n, if n > 0 then |B.KeysOf(priceTree.tree)[n - 1]| else 0, incomingPrice, remaining, PlainAll(results), fs)
        decreases if remaining != 0 then 1 else 0, |ladder|, n
      {
        var beyond;
        StartsLeafDown(leaf, n);
        results, remaining, beyond, n := ScanDown(leaf, incomingPrice, results, remaining, q, n, fs);
        if beyond { return; }
        leaf := leaf.prev;
      }
      if remaining != 0 {
        NoLeafBelow(q, n, incomingPrice, remaining, PlainAll(results), fs);
      }
    }

    lemma {:induction false} DownStarts(limit: int, qty: int)
      requires Valid() && taker == Sell
      ensures var ks := B.KeysOf(priceTree.tree);
              LeadsDown(Makers(NodesOf(ladder)), |ks|, if |ks| > 0 then |ks[|ks| - 1]| else 0, limit, qty, PlainAll([]), Course(limit, qty).fills)
              || !Course(limit, qty).ends
      ensures qty == 0 ==> Course(limit, qty).fills == [] == PlainAll([])
      ensures Owned([], limit) && |priceTree.LeafChain()| == |B.KeysOf(priceTree.tree)|
    {
      hide R.Good, B.KeysOf, Indexed, TreeOk, AllValid, W.WalkDown, T.BPlusTree.LeafChain, NodesOf, Makers, Leads, Wanting,
        CountEmpty, Known;
      TreeIsValid();
      ChainKnown();
      W.NothingGiven(priceTree.tree, priceTree.order, Makers(NodesOf(ladder)), limit);
      assert [] + Course(limit, qty).fills == Course(limit, qty).fills;
    }

    lemma {:induction false} StartsLeafDown(leaf: N.Node<PriceLevel>, n: nat)
      requires Shaped() && leaf == N.At(priceTree.LeafChain(), n - 1)
      ensures AtDown(leaf, |leaf.keys| - 1, false, n, |leaf.keys|) && n > 0 && n <= |B.KeysOf(priceTree.tree)|
      ensures B.KeysOf(priceTree.tree)[n - 1] == leaf.keys
    {
      ChainKnown();
      hide Shaped, T.BPlusTree.LeafChain, B.KeysOf;
    }

    lemma {:induction false} NoLeafBelow(q: seq<Maker>, n: nat, limit: int, remaining: int, given: seq<MatchResult>, fs: seq<MatchResult>)
      requires n <= |priceTree.LeafChain()| == |B.KeysOf(priceTree.tree)| && N.At(priceTree.LeafChain(), n - 1) == null
      requires LeadsDown(q, n, if n > 0 then |B.KeysOf(priceTree.tree)[n - 1]| else 0, limit, remaining, given, fs)
      ensures given == fs
    {
      hide B.KeysOf, T.BPlusTree.LeafChain, R.Good;
    }

    // ---- matching

    /** In the order of a walk the keys of the index are the prices of the levels, and the orders at them are the queue. */
    lemma {:induction false} QueueIsAhead()
      requires Valid()
      ensures priceTree.order >= 2 && R.Good(priceTree.tree, priceTree.order) && Positive(Queue())
      ensures var s := W.AllKeys(priceTree.tree); W.WaitingFor(taker, Queue(), s) == Queue() && W.DueFor(taker, Queue(), s) == Due(ladder)
    {
      hide AllValid, T.BPlusTree.Valid, R.Good, R.Contents, B.KeysOf, B.Strung, NodesOf, CountEmpty, Leads, Makers, Sorted;
      TreeIsValid();
      priceTree.ChainListsEntries();
      KeysArePrices(priceTree.tree, priceTree.order, taker, ladder, priceMap, priceKeys);
      QueueLists(taker, ladder);
      WaitingIsQueue(Queue(), ladder);
      DueIs(Queue(), ladder);
      MakersAt(NodesOf(ladder));
    }

    /** Dropping the empty levels, best first, never moves a key past a walk. */
    ghost predicate Undisturbed()
      reads this`ladder, priceTree, Levels()`nodes
    {
      && priceTree.order >= 2 && R.Good(priceTree.tree, priceTree.order)
      && W.SmoothFor(priceTree.tree, Due(ladder), priceTree.order)
    }

    /** Then the way of every match is clear. */
    lemma {:induction false} UndisturbedIsClear(limit: int, qty: int)
      requires Valid() && Undisturbed()
      ensures Clear(limit, qty)
    {
      hide Indexed, TreeOk, AllValid, NodesOf, Makers, CountEmpty, Leads, Wanting, R.Good, B.KeysOf, B.Strung, W.WalkUp,
        W.WalkDown, W.SmoothFor, W.Due, W.DueDown;
      QueueIsAhead();
      W.SmoothCourse(taker, priceTree.tree, priceTree.order, Queue(), limit, qty);
    }

    /** It is enough that no level is empty, or that the index is one leaf. */
    lemma {:induction false} FullOrFlatIsUndisturbed()
      requires Valid() && (emptyLevelCount == 0 || (priceTree.tree.Some? ==> priceTree.tree.value.Leaf?))
      ensures Undisturbed()
    {
      hide Shaped, R.Good, NodesOf, Leads, Wanting;
      TreeIsValid();
      DueAreEmpty(ladder);
      if emptyLevelCount != 0 {
        W.OneLeafIsSmooth(priceTree.tree, Due(ladder), priceTree.order);
      }
    }

    /** Or that every node keeps what is required of it even without the empty levels: in an index of two levels that is one
        level with orders in every leaf. */
    lemma {:induction false} RoomIsUndisturbed()
      requires Valid() && C.Room(priceTree.tree, set p | p in priceMap && priceMap[p].nodes == [] :: p, priceTree.order)
      ensures Undisturbed()
    {
      TreeIsValid();
      DueAreEmpty(ladder);
      LevelsAreMapped();
      C.RoomIsSmooth(priceTree.tree, set p | p in priceMap && priceMap[p].nodes == [] :: p, Due(ladder), priceTree.order);
      hide C.Room, W.SmoothFor, T.BPlusTree.Valid, Due, R.Good;
    }

    /** Finds whom an incoming order trades with, without trading. Only empty levels may go. The taker is given what the
        priority list of the orders gives it exactly if the walk runs straight. */
    method Match(incomingPrice: int, incomingQty: int) returns (results: seq<V1Match>)
      requires Valid() && incomingQty >= 0 && Course(incomingPrice, incomingQty).ends
      modifies this`priceMap, this`priceKeys, this`ladder, this`emptyLevelCount, priceTree, priceTree.repr
      ensures Valid() && NodesOf(ladder) == old(NodesOf(ladder)) && priceTree.repr == old(priceTree.repr)
      ensures Queue() == old(Queue()) && Orders() == old(Orders()) && Levels() <= old(Levels())
      ensures PlainAll(results) == old(Course(incomingPrice, incomingQty)).fills
      ensures PlainAll(results) == Fills(taker, Some(incomingPrice), Queue(), incomingQty)
              <==> old(Course(incomingPrice, incomingQty)).straight
      ensures old(Course(incomingPrice, incomingQty)).straight ==> Aligned(results, NodesOf(ladder))
      ensures forall m :: m in results ==>
                && m.price == m.makerNode.decimalPrice && m.makerNode in NodesOf(ladder)
                && m.makerNode.price == PriceToBigint(m.price) && Crosses(taker, Some(incomingPrice), m.makerNode.price)
      ensures Slims()
    {
      hide Indexed, TreeOk, AllValid, Fills, Makers, NodesOf, CountEmpty, Leads, Wanting, Aligned, PlainAll, Owned, B.KeysOf,
        B.Strung, R.Good, W.WaitingFor, W.CourseOf;
      OrdersAreNodes();
      QueueIsAhead();
      W.CourseIff(taker, priceTree.tree, priceTree.order, Queue(), incomingPrice, incomingQty);
      if taker == Buy {
        results := MatchAscending(incomingPrice, incomingQty);
      } else {
        results := MatchDescending(incomingPrice, incomingQty);
      }
      OrdersAreNodes();
      OwnedMeans(results, incomingPrice);
      if PlainAll(results) == Fills(taker, Some(incomingPrice), Queue(), incomingQty) {
        OwnedIsAligned(results, incomingPrice, incomingQty);
      }
    }

    lemma {:induction false} OwnedMeans(ms: seq<V1Match>, limit: int)
      requires Valid() && Owned(ms, limit)
      ensures forall m :: m in ms ==>
                && m.price == m.makerNode.decimalPrice && m.makerNode in NodesOf(ladder)
                && m.makerNode.price == PriceToBigint(m.price) && Crosses(taker, Some(limit), m.makerNode.price)
    {
      hide Shaped, NodesOf, PriceToBigint, Crosses;
    }

    /** Matches that tell of the right ids in the right order are with the right orders. */
    lemma {:induction false} OwnedIsAligned(ms: seq<V1Match>, limit: int, qty: int)
      requires Valid() && Owned(ms, limit) && qty >= 0 && PlainAll(ms) == Fills(taker, Some(limit), Queue(), qty)
      ensures Aligned(ms, NodesOf(ladder))
    {
      hide Indexed, TreeOk, AllValid, NodesOf, PriceToBigint, Crosses, Fills, Makers;
      var c := NodesOf(ladder);
      MakersAt(c);
      FillsTakeFront(taker, Some(limit), Queue(), qty);
      forall k | 0 <= k < |ms| ensures k < |c| && ms[k].makerNode == c[k] {
        assert PlainAll(ms)[k] == Plain(ms[k]);
        assert ms[k] in ms && c[k] in c;
      }
    }

    // ---- the best price

    /** The look for the best level comes to an empty leaf at that end of the index before it comes to an order. */
    ghost predicate Blind()
      reads this`ladder, priceTree, Levels()`nodes
    {
      && priceTree.order >= 2 && R.Good(priceTree.tree, priceTree.order)
      && E.GoesHollow(priceTree.tree, Leading(ladder), priceTree.order, taker == Sell)
    }

    /** That never happens to an index of one or two levels. */
    lemma {:induction false} LowIsNotBlind()
      requires Valid() && (priceTree.tree.Some? ==> R.Height(priceTree.tree.value) <= 1)
      ensures !Blind()
    {
      hide Shaped, NodesOf, Leads, Wanting, R.Good;
      SolidTree();
      E.LowNeverHollow(priceTree.tree, Leading(ladder), priceTree.order, taker == Sell);
    }

    lemma {:induction false} FlatIsNotBlind()
      requires Valid() && IsFlat()
      ensures !Blind()
    {
      LowIsNotBlind();
      hide Shaped, NodesOf, Leads, Wanting;
    }

    /** A look through one leaf leaves one leaf, or nothing. */
    lemma {:induction false} FlatLook()
      requires Valid() && IsFlat()
      ensures LookedAt().Some? ==> LookedAt().value.Leaf?
    {
      TreeIsValid();
      FlatLooked(priceTree.tree, Leading(ladder), priceTree.order, taker == Sell);
      hide Shaped, R.Good, E.Looked;
    }

    static lemma {:induction false} FlatLooked(root: R.Root<PriceLevel>, keys: seq<int>, order: int, top: bool)
      requires order >= 2 && R.Good(root, order) && (root.Some? ==> root.value.Leaf?)
      ensures var r := E.Looked(root, keys, order, top); r.Some? ==> r.value.Leaf?
      decreases |keys|
    {
      hide R.Good, R.After, E.HollowEnd;
      if keys != [] {
        FlatAfter(root, keys[0], order);
        FlatLooked(R.After(root, R.DelOp(keys[0]), order), keys[1..], order, top);
      }
    }

    lemma {:induction false} SolidTree()
      requires Shaped()
      ensures priceTree.order >= 2 && R.Good(priceTree.tree, priceTree.order) && S.SolidIfLow(priceTree.tree) && E.TidyIfThree(priceTree.tree)
      ensures Ascending(R.Contents(priceTree.tree)) && ToMap(R.Contents(priceTree.tree)) == priceMap
    {
      priceTree.ChainListsEntries();
      hide R.Good, S.SolidIfLow, E.TidyIfThree, R.Contents, ToMap, AllValid, T.BPlusTree.Holds;
    }

    /** In an index of three levels it happens exactly if no level below the root's child at that end holds an order. */
    lemma {:induction false} BlindIff()
      requires Valid() && priceTree.tree.Some? && R.Height(priceTree.tree.value) == 2
      ensures var t := priceTree.tree.value;
              t.Inner? && |t.children| > 0
              && (Blind() <==> forall l :: l in Vals(M.EntriesOf(E.EndChild(t, taker == Sell))) ==> l.nodes == [])
    {
      hide Shaped, NodesOf, Leads, Wanting, R.Good, S.SolidIfLow, E.TidyIfThree, R.Height, M.EntriesOf, ToMap, IndexedBy;
      hide E.GoesHollow, Leading, M.Flat, S.Leaves, S.AllLeaves, Vals;
      SolidTree();
      var t, top := priceTree.tree.value, taker == Sell;
      var es := R.Contents(priceTree.tree);
      assert E.Three(priceTree.tree, priceTree.order);
      MappedBy();
      LeadingIsOutermost(es, taker, ladder, priceMap, priceKeys);
      E.GoesHollowIff(priceTree.tree, Leading(ladder), priceTree.order, top);
      E.EndParts(t, top);
      EndsWith(es, M.EntriesOf(E.EndChild(t, top)), top);
    }

    lemma {:induction false} MappedBy()
      requires Shaped()
      ensures IndexedBy(taker, ladder, priceMap, priceKeys)
    {
    }

    /** The outermost m levels are empty exactly if that many lead. */
    lemma {:induction false} EndsWith(es: Entries<PriceLevel>, end: Entries<PriceLevel>, top: bool)
      requires |es| == |ladder| && forall i :: 0 <= i < |es| ==> LevelAt(es, i, top) == ladder[i]
      requires if top then exists a :: es == a + end else exists b :: es == end + b
      ensures |end| <= |Leading(ladder)| <==> forall l :: l in Vals(end) ==> l.nodes == []
    {
      LeadingAt(ladder);
      hide Leading;
      forall i | 0 <= i < |end| ensures LevelAt(end, i, top) == ladder[i] && LevelAt(end, i, top) in Vals(end) {
        assert LevelAt(es, i, top) == ladder[i];
        assert Vals(end)[if top then |end| - 1 - i else i] == LevelAt(end, i, top);
      }
      if |end| <= |Leading(ladder)| {
        forall l | l in Vals(end) ensures l.nodes == [] {
          var j :| 0 <= j < |end| && Vals(end)[j] == l;
          assert LevelAt(end, if top then |end| - 1 - j else j, top) == l;
        }
      }
    }

    /** The first entry the index reports for this side, if any, is the best level. */
    method BestEntry() returns (level: PriceLevel?)
      requires Valid()
      ensures level != null ==> ladder != [] && level == ladder[0] && (level.IsEmpty() <==> level.nodes == [])
      ensures level == null <==> ladder == [] || E.HollowEnd(priceTree.tree, taker == Sell)
      ensures Valid() && NodesOf(ladder) == old(NodesOf(ladder)) && Makers(NodesOf(ladder)) == old(Makers(NodesOf(ladder)))
      ensures Undisturbed() == old(Undisturbed()) && Blind() == old(Blind()) && LookedAt() == old(LookedAt())
    {
      hide Indexed, TreeOk, AllValid, NodesOf, Makers, CountEmpty, Leads, Wanting, T.BPlusTree.Valid, E.HollowEnd, E.Looked,
        Due, Leading, E.GoesHollow, W.SmoothFor, R.Good;
      TreeIsValid();
      Extremes();
      var entry;
      if taker == Sell {
        entry := priceTree.MaxEntry();
      } else {
        entry := priceTree.MinEntry();
      }
      level := if entry.Some? then entry.value.1 else null;
      if level != null {
        EmptyInWalk(level);
      }
    }

    lemma {:induction false} EmptyInWalk(level: PriceLevel)
      requires Valid() && level in ladder
      ensures level.IsEmpty() <==> level.nodes == []
    {
      EmptyIn(level);
    }

    /** What the outermost leaf says, when it says anything, is true. */
    lemma {:induction false} Extremes()
      requires Shaped() && priceTree.Valid()
      ensures priceTree.tree.Some? ==> M.Formed(priceTree.tree.value, R.Height(priceTree.tree.value))
      ensures var e := if taker == Sell then S.MaxEntry(priceTree.tree) else S.MinEntry(priceTree.tree);
              && (e.Some? ==> ladder != [] && e.value.1 == ladder[0])
              && (e.None? <==> priceTree.tree.None? || E.HollowEnd(priceTree.tree, taker == Sell)) && (priceTree.tree.None? ==> ladder == [])
    {
      hide AllValid, IndexedBy, T.BPlusTree.Valid, T.BPlusTree.LeafChain, S.Leaves, R.Good, R.Height, M.Formed, Reversed,
        Vals, S.MinEntry, S.MaxEntry;
      hide R.Contents, E.HollowEnd;
      var t := priceTree.tree;
      TreeFormed();
      priceTree.ChainListsEntries();
      var es := R.Contents(t);
      EntriesAreLevels(es, taker, ladder, priceMap, priceKeys);
      ReversedAt(ladder);
      EndsOf();
      assert es != [] ==> Vals(es)[0] == es[0].1 && Vals(es)[|es| - 1] == es[|es| - 1].1;
    }

    /** What the index answers, in terms of its entries and of its outermost leaves. */
    lemma {:induction false} EndsOf()
      requires priceTree.Valid()
      ensures priceTree.tree.Some? ==> M.Formed(priceTree.tree.value, R.Height(priceTree.tree.value))
      ensures var t := priceTree.tree; var es := R.Contents(t); var e := if taker == Sell then S.MaxEntry(t) else S.MinEntry(t);
              && (e.Some? ==> es != [] && e.value == if taker == Sell then es[|es| - 1] else es[0])
              && (e.None? <==> t.None? || E.HollowEnd(t, taker == Sell)) && (t.None? ==> es == [])
    {
      var t := priceTree.tree;
      TreeFormed();
      if t.Some? {
        S.MinEntryIff(t.value);
        S.MaxEntryIff(t.value);
      }
      hide S.Leaves, R.Good, T.BPlusTree.Holds, M.Formed, M.EntriesOf, R.Height;
    }

    lemma {:induction false} TreeFormed()
      requires priceTree.Valid()
      ensures priceTree.tree.Some? ==> M.Formed(priceTree.tree.value, R.Height(priceTree.tree.value))
    {
      if priceTree.tree.Some? {
        R.GoodIsFormed(priceTree.tree.value, priceTree.order);
      }
    }

    /** The index as the look leaves it. */
    ghost function LookedAt(): (r: R.Root<PriceLevel>)
      requires Valid()
      reads this, priceTree, priceTree.repr, Levels(), Orders()
      ensures priceTree.order >= 2 && R.Good(r, priceTree.order)
    {
      TreeIsValid();
      E.Looked(priceTree.tree, Leading(ladder), priceTree.order, taker == Sell)
    }

    /** If dropping the empty levels disturbs no walk, it disturbs none after a look either. */
    lemma {:induction false} UndisturbedAfterLook(limit: int, qty: int)
      requires Valid() && Undisturbed()
      ensures var c := W.CourseOf(taker, LookedAt(), priceTree.order, Queue(), limit, qty); c.ends && c.straight
    {
      hide Indexed, TreeOk, AllValid, NodesOf, Makers, CountEmpty, Leads, Wanting, R.Good, W.SmoothFor, W.Due, W.DueDown,
        W.AllKeys, E.Looked, W.CourseOf;
      QueueIsAhead();
      LeadingIsAhead();
      W.SmoothAfterLook(taker, priceTree.tree, priceTree.order, Queue(), Leading(ladder));
      W.SmoothCourse(taker, LookedAt(), priceTree.order, Queue(), limit, qty);
    }

    lemma {:induction false} LeadingIsAhead()
      requires Valid()
      ensures W.Ahead(taker, Leading(ladder), W.AllKeys(priceTree.tree))
      ensures forall i :: 0 <= i < |Leading(ladder)| ==> W.At(Queue(), Leading(ladder)[i]) == []
    {
      hide AllValid, T.BPlusTree.Valid, R.Good, R.Contents, B.KeysOf, B.Strung, NodesOf, CountEmpty, Leads, Wanting, Makers,
        Sorted, W.At, Leading;
      TreeIsValid();
      priceTree.ChainListsEntries();
      KeysArePrices(priceTree.tree, priceTree.order, taker, ladder, priceMap, priceKeys);
      QueueLists(taker, ladder);
      LeadingAt(ladder);
      NoMakers([]);
      forall i | 0 <= i < |Leading(ladder)| ensures W.At(Queue(), Leading(ladder)[i]) == [] {
        assert ladder[i] in ladder;
      }
    }

    /** Drops empty levels from the best end until the best level holds an order, or the index shows none. */
    method CleanBestLevel() returns (level: PriceLevel?)
      requires Valid()
      modifies this`priceMap, this`priceKeys, this`ladder, this`emptyLevelCount, priceTree, priceTree.repr
      ensures Valid() && NodesOf(ladder) == old(NodesOf(ladder)) && Queue() == old(Queue()) && priceTree.repr == old(priceTree.repr)
      ensures Levels() <= old(Levels()) && priceTree.tree == old(LookedAt()) && (old(Undisturbed()) ==> Undisturbed())
      ensures level != null ==> ladder != [] && level == ladder[0] && level.nodes != []
      ensures level == null <==> NodesOf(ladder) == [] || old(Blind())
      ensures Slims()
    {
      hide Shaped, CountEmpty, Leads, Wanting, NodesOf, Makers, Undisturbed, Blind, LookedAt, E.HollowEnd;
      level := BestEntry();
      while level != null && level.IsEmpty()
        invariant Valid() && NodesOf(ladder) == old(NodesOf(ladder)) && Makers(NodesOf(ladder)) == old(Makers(NodesOf(ladder))) && priceTree.repr == old(priceTree.repr)
        invariant Slims()
        invariant Levels() <= old(Levels()) && (old(Undisturbed()) ==> Undisturbed())
        invariant Blind() == old(Blind()) && LookedAt() == old(LookedAt())
        invariant level != null ==> ladder != [] && level == ladder[0] && (level.IsEmpty() <==> level.nodes == [])
        invariant level == null <==> ladder == [] || E.HollowEnd(priceTree.tree, taker == Sell)
        decreases |ladder|
      {
        DropBest(level);
        level := BestEntry();
      }
      LookEnds();
    }

    /** A look ends at a level with orders, at an empty leaf, or with no level left. */
    lemma {:induction false} LookEnds()
      requires Valid() && (ladder == [] || ladder[0].nodes != [] || E.HollowEnd(priceTree.tree, taker == Sell))
      ensures LookedAt() == priceTree.tree
      ensures E.HollowEnd(priceTree.tree, taker == Sell) ==> Blind()
      ensures ladder == [] ==> NodesOf(ladder) == []
      ensures ladder != [] && ladder[0].nodes != [] ==> NodesOf(ladder) != []
      ensures (ladder == [] || ladder[0].nodes != []) && !E.HollowEnd(priceTree.tree, taker == Sell) ==> !Blind()
    {
      TreeIsValid();
      hide R.Good, Shaped, E.HollowEnd, Leads, Wanting;
    }

    /** Drops the best level, which is empty. */
    method DropBest(level: PriceLevel)
      requires Valid() && ladder != [] && level == ladder[0] && level.nodes == [] && !E.HollowEnd(priceTree.tree, taker == Sell)
      modifies this`priceMap, this`priceKeys, this`ladder, this`emptyLevelCount, priceTree, priceTree.repr
      ensures Valid() && NodesOf(ladder) == old(NodesOf(ladder)) && Makers(NodesOf(ladder)) == old(Makers(NodesOf(ladder))) && priceTree.repr == old(priceTree.repr)
      ensures Levels() <= old(Levels()) && |ladder| < |old(ladder)| && (old(Undisturbed()) ==> Undisturbed())
      ensures Blind() == old(Blind()) && LookedAt() == old(LookedAt())
      ensures Slims()
    {
      hide Indexed, TreeOk, AllValid, CountEmpty, Leads, Wanting, NodesOf, Makers, T.BPlusTree.Valid, R.Good, R.After,
        W.Smooth, E.HollowEnd, Due, Leading;
      hide E.Looked, E.GoesHollow, W.SmoothFor, T.BPlusTree.LosesFrom;
      ghost var was, t := ladder, priceTree.tree;
      TreeIsValid();
      OrdersAreNodes();
      LookStep(t, was, level.price);
      CleanupLevel(level, 0);
      Beheaded(was);
      OrdersAreNodes();
      TreeIsValid();
    }

    static lemma {:induction false} Beheaded(ls: seq<PriceLevel>)
      requires ls != []
      ensures ls[..0] + ls[0 + 1..] == ls[1..]
    {
    }

    /** A step of the look, and what is still ahead of it. */
    lemma {:induction false} LookStep(t: R.Root<PriceLevel>, ls: seq<PriceLevel>, key: int)
      requires priceTree.order >= 2 && R.Good(t, priceTree.order) && !E.HollowEnd(t, taker == Sell)
      requires ls != [] && ls[0].nodes == [] && ls[0].price == key
      ensures var r, top := R.After(t, R.DelOp(key), priceTree.order), taker == Sell;
              && (W.SmoothFor(t, Due(ls), priceTree.order) ==> W.SmoothFor(r, Due(ls[1..]), priceTree.order))
              && E.GoesHollow(t, Leading(ls), priceTree.order, top) == E.GoesHollow(r, Leading(ls[1..]), priceTree.order, top)
              && E.Looked(t, Leading(ls), priceTree.order, top) == E.Looked(r, Leading(ls[1..]), priceTree.order, top)
    {
      hide R.Good, R.After, W.Smooth, E.HollowEnd;
      DueStep(ls);
      assert ([key] + Due(ls[1..]))[1..] == Due(ls[1..]);
      assert ([key] + Leading(ls[1..]))[1..] == Leading(ls[1..]);
    }

    /** The price of the best order; none if there is no order, or the look runs into an empty leaf. */
    method BestPrice() returns (r: Option<int>)
      requires Valid()
      modifies this`priceMap, this`priceKeys, this`ladder, this`emptyLevelCount, priceTree, priceTree.repr
      ensures Valid() && NodesOf(ladder) == old(NodesOf(ladder)) && Queue() == old(Queue()) && priceTree.repr == old(priceTree.repr)
      ensures Levels() <= old(Levels()) && priceTree.tree == old(LookedAt()) && (old(Undisturbed()) ==> Undisturbed())
      ensures r == if NodesOf(ladder) == [] || old(Blind()) then None else Some(NodesOf(ladder)[0].decimalPrice)
      ensures Slims()
    {
      hide Valid, LookedAt, Blind, Undisturbed;
      var level := CleanBestLevel();
      if level != null {
        FirstOfBest(level);
        r := Some(level.head.decimalPrice);
      } else {
        r := None;
      }
    }

    lemma {:induction false} KeyOfFirst()
      requires Valid() && NodesOf(ladder) != []
      ensures Queue() != [] && Queue()[0].price == PriceToBigint(NodesOf(ladder)[0].decimalPrice) && Queue()[0].qty > 0
    {
      MakersAt(NodesOf(ladder));
      hide PriceToBigint, Shaped, NodesOf, Makers;
    }

    lemma {:induction false} FirstOfBest(level: PriceLevel)
      requires Valid() && ladder != [] && level == ladder[0] && level.nodes != []
      ensures level.head != null && NodesOf(ladder) != [] && NodesOf(ladder)[0] == level.head
    {
      assert level.Valid();
    }
  }

  // ---- prices and index keys

  predicate OnGrid(p: int) { p % GRID == 0 }

  /** A key stands for the prices nearest to it, from half a step below up to but not including half a step above. */
  lemma {:induction false} KeyIsNearest(p: int, key: int)
    ensures PriceToBigint(p) == key <==> key * 10000 - 5000 <= p < key * 10000 + 5000
  {
    var k := PriceToBigint(p);
    assert k * 10000 - 5000 <= p < k * 10000 + 5000;
  }

  /** A lower price has no higher key. */
  lemma {:induction false} KeyKeepsOrder(a: int, b: int)
    requires a <= b
    ensures PriceToBigint(a) <= PriceToBigint(b)
  {
  }

  lemma {:induction false} KeyOfGrid(a: int)
    requires OnGrid(a)
    ensures a == PriceToBigint(a) * GRID
  {
    var k := a / GRID;
    assert a == GRID * k;
  }

  /** Comparing keys is comparing prices, except for two prices that round to one key. */
  lemma {:induction false} KeyComparesIff(a: int, b: int)
    ensures (PriceToBigint(a) <= PriceToBigint(b) <==> a <= b) <==> !(PriceToBigint(a) == PriceToBigint(b) && a > b)
    ensures OnGrid(a) && OnGrid(b) ==> (PriceToBigint(a) <= PriceToBigint(b) <==> a <= b)
  {
    hide PriceToBigint, OnGrid;
    if a <= b {
      KeyKeepsOrder(a, b);
    } else {
      KeyKeepsOrder(b, a);
    }
    if OnGrid(a) && OnGrid(b) {
      KeyOfGrid(a);
      KeyOfGrid(b);
    }
  }
}
