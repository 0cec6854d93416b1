/** The price index: an in-place B+ tree with linked leaves. */
module BPlusTree {
  import opened SortedEntries
  import opened BPlusModel
  import Model = BPlusModel
  import opened BPlusRuns
  import opened BPlusNodes
  import opened BPlusShape
  import opened BPlusEnds
  import opened BPlusRepair
  import Runs = BPlusRuns

  /** The leaf has lost the key, and its neighbours are those it had. */
  twostate predicate LeftBehind<V>(x: Node<V>, key: int)
    reads x
  {
    var k := LowerBound(old(x.keys), key);
    && k < |old(x.keys)| == |old(x.values)| && x.keys == Without(old(x.keys), k) && x.values == Without(old(x.values), k)
    && x.next == old(x.next) && x.prev == old(x.prev)
  }

  ghost function ChainOf<V>(skel: Option<Skel<V>>): seq<Node<V>> {
    if skel.None? then [] else LeafNodes(skel.value)
  }

  twostate predicate Untouched<V>(x: Node<V>)
    reads x
  {
    x.keys == old(x.keys) && x.values == old(x.values) && x.next == old(x.next) && x.prev == old(x.prev)
  }

  class BPlusTree<V> {
    var root: Node?<V>
    var size: nat
    const order: int
    ghost var repr: set<Node<V>>
    ghost var tree: Root<V>
    ghost var skel: Option<Skel<V>>

    /** The nodes hold a well-formed tree of which size is the number of entries, and its leaves are linked. */
    ghost predicate Valid()
      reads this, repr
    {
      && order >= 2 && Good(tree, order) && SolidIfLow(tree) && TidyIfThree(tree) && size == |Contents(tree)|
      && (root == null <==> tree.None?) && (tree.None? <==> skel.None?)
      && (skel.Some? ==> Holds(skel.value, tree.value))
    }

    ghost predicate Holds(sk: Skel<V>, t: Tree<V>)
      reads this`root, this`repr, repr
    {
      sk.node == root && Distinct(sk) && Nodes(sk) <= repr && Rep(sk, t) && Chain(LeafNodes(sk), repr)
    }

    /** The stored entries. */
    ghost function Entries(): map<int, V>
      reads this
    {
      ToMap(Contents(tree))
    }

    /** The nodes below the root; others may still point into the tree. */
    ghost function Placed(): set<Node<V>>
      reads this`skel
    {
      if skel.None? then {} else Nodes(skel.value)
    }

    constructor (order: int)
      requires order >= 2
      ensures Valid() && Entries() == map[] && tree == None && this.order == order && fresh(repr)
    {
      this.order, root, size, repr, tree, skel := order, null, 0, {}, None, None;
    }

    // ---- the operations

    method Insert(key: int, value: V)
      requires Valid()
      modifies this, repr
      ensures Valid() && fresh(repr - old(repr)) && old(repr) <= repr
      ensures tree == Runs.Insert(old(tree), key, value, order)
      ensures Entries() == old(Entries())[key := value] && size == |Entries()|
    {
      hide Good, Contents, SolidIfLow, TidyIfThree, Runs.Insert, ToMap, Holds, Find;
      InsertCounts(tree, key, value, order);
      InsertKeepsSolid(tree, key, value, order);
      InsertKeepsTidy(tree, key, value, order);
      if root == null {
        PlantRoot(key, value);
      } else {
        InsertBelowRoot(key, value);
      }
    }

    method PlantRoot(key: int, value: V)
      requires Valid() && root == null
      modifies this`root, this`size, this`repr, this`tree, this`skel
      ensures root != null && tree == Runs.Insert(old(tree), key, value, order)
      ensures fresh(repr - old(repr)) && old(repr) <= repr
      ensures skel.Some? && tree.Some? && Holds(skel.value, tree.value)
      ensures size == |Contents(old(tree))| + if Find(Contents(old(tree)), key) == None then 1 else 0
    {
      root := new Node.Leaf([key], [value], null, null);
      size := 1;
      repr, tree, skel := repr + {root}, Some(Leaf([key], [value])), Some(Skel(root, []));
      LeafSkel(root);
    }

    method InsertBelowRoot(key: int, value: V)
      requires Valid() && root != null
      modifies this`root, this`size, this`repr, this`tree, this`skel, repr
      ensures root != null && tree == Runs.Insert(old(tree), key, value, order)
      ensures fresh(repr - old(repr)) && old(repr) <= repr
      ensures skel.Some? && tree.Some? && Holds(skel.value, tree.value)
      ensures size == |Contents(old(tree))| + if Find(Contents(old(tree)), key) == None then 1 else 0
    {
      hide LeafNodes, Nodes, Rep, Distinct, Chain, KidsRep, KidsDistinct, KidNodes, KidLeaves, Reported, Model.InsertInto;
      ghost var sk, t, h := skel.value, tree.value, Height(tree.value);
      HasKeyMeans(t, key, order);
      GoodIsSorted(t, order);
      assert [] + LeafNodes(sk) + [] == LeafNodes(sk);
      var split;
      ghost var ks;
      split, ks := InsertInto(root, key, value, sk, t, h, [], []);
      assert [] + KidLeaves(ks) + [] == KidLeaves(ks);
      GrowRoot(split, ks, Model.InsertInto(t, h, key, value, order));
    }

    lemma {:induction false} GoodIsSorted(t: Tree<V>, order: int)
      requires order >= 2 && Good(Some(t), order)
      ensures Formed(t, Height(t)) && Sorted(t)
    {
      var lo, hi := BoundsFor(t, order, 0);
      OkIsSorted(t, Height(t), lo, hi, order - 1);
    }

    /** A split root gets a new root above it. */
    method GrowRoot(split: Option<Half<V>>, ghost ks: seq<Skel<V>>, ghost r: Insertion<V>)
      requires root != null && Reported(split, root, ks, r) && KidsRep(ks, Outs(r)) && KidsDistinct(ks)
      requires KidNodes(ks) <= repr && Chain(KidLeaves(ks), repr)
      modifies this`root, this`repr, this`tree, this`skel
      ensures root != null && tree == Some(Runs.GrowRoot(r)) && skel.Some? && Holds(skel.value, Runs.GrowRoot(r))
      ensures fresh(repr - old(repr)) && old(repr) <= repr
    {
      hide KidsRep, KidsDistinct, KidNodes, KidLeaves, Chain;
      tree := Some(Runs.GrowRoot(r));
      if split.Some? {
        assert ks == [ks[0], ks[1]];
        KidsTwo(ks[0], ks[1]);
        ghost var ns := repr;
        root := new Node.Inner([split.value.key], [split.value.left, split.value.right]);
        repr := repr + {root};
        ChainGrows(KidLeaves(ks), ns, repr);
        skel := Some(Skel(root, ks));
      } else {
        assert ks == [ks[0]];
        KidsOne(ks[0]);
        KidsRepOne(ks[0], r.tree);
        skel := Some(ks[0]);
      }
    }

    /** What an insertion does to the number of entries. */
    lemma {:induction false} InsertCounts(root: Root<V>, key: int, value: V, order: int)
      requires order >= 2 && Good(root, order)
      ensures Good(Runs.Insert(root, key, value, order), order)
      ensures var es, es' := Contents(root), Contents(Runs.Insert(root, key, value, order));
              && ToMap(es') == ToMap(es)[key := value] && |ToMap(es')| == |es'|
              && |es'| == |es| + if Find(es, key) == None then 1 else 0
    {
      hide Good, Contents, Runs.Insert, Find, Put, ToMap;
      InsertOk(root, key, value, order);
      GoodIsSound(root, order);
      GoodIsSound(Runs.Insert(root, key, value, order), order);
      PutMeans(Contents(root), key, value);
      MapSize(Put(Contents(root), key, value));
    }

    method Delete(key: int) returns (deleted: bool)
      requires Valid()
      modifies this, repr
      ensures Valid() && repr == old(repr)
      ensures tree == After(old(tree), DelOp(key), order)
      ensures deleted <==> key in old(Entries())
      ensures Entries() == old(Entries()) - {key} && size == |Entries()|
      ensures deleted ==> LosesFrom(old(LeafChain()), old(tree), key)
      ensures Placed() <= old(Placed()) && forall x :: x in repr && x !in old(Placed()) ==> Untouched(x)
    {
      hide Good, Contents, SolidIfLow, TidyIfThree, After, ToMap, Holds, LosesFrom, Nodes;
      DeleteCounts(tree, key, order);
      if root == null {
        return false;
      }
      deleted := DeleteBelowRoot(key);
      if deleted { size := size - 1; }
    }

    /** The chain c of leaves has lost the leaf that was given up, if any; that leaf, out of the chain, still points to where it
        was. */
    twostate predicate LosesFrom(c: seq<Node<V>>, t: Root<V>, key: int)
      requires order >= 2 && Good(t, order)
      reads this`skel, this`tree, this`repr, repr
    {
      var n, fix := PlaceOf(t, key, order), FixOf(t, key, order);
      && n < |c| && c[n] in repr && LeafChain() == (if tree.None? then [] else Shorter(c, n, fix))
      && (tree.None? || fix == IntoLeft ==> LeftBehind(c[n], key))
    }

    method DeleteBelowRoot(key: int) returns (deleted: bool)
      requires Valid() && root != null
      modifies this`root, this`tree, this`skel, repr
      ensures tree == After(old(tree), DelOp(key), order)
      ensures deleted <==> Runs.Delete(old(tree), key, order).Some?
      ensures (root == null <==> tree.None?) && (tree.None? <==> skel.None?)
      ensures skel.Some? ==> Holds(skel.value, tree.value)
      ensures deleted ==> LosesFrom(old(LeafChain()), old(tree), key)
      ensures Placed() <= old(Placed()) && forall x :: x in repr && x !in old(Placed()) ==> Untouched(x)
    {
      hide LeafNodes, Nodes, Rep, Distinct, Chain, Model.DeleteFrom, Shorter, Contents, SolidIfLow, TidyIfThree, Formed, Sorted;
      ghost var sk, t, h := skel.value, tree.value, Height(tree.value);
      GoodIsSorted(t, order);
      if After(tree, DelOp(key), order).None? {
        OnlyALeafVanishes(tree, key, order);
      }
      LeafHasNoKids(sk, t);
      assert [] + LeafNodes(sk) + [] == LeafNodes(sk);
      ghost var sk';
      deleted, sk' := DeleteFrom(root, key, sk, t, h, true, [], []);
      assert [] + LeafNodes(sk') + [] == LeafNodes(sk');
      skel := Some(sk');
      if deleted {
        tree := Some(Model.DeleteFrom(t, h, key, true, order / 2).value);
        ShrinkRoot();
      }
    }

    lemma {:induction false} LeafHasNoKids(sk: Skel<V>, t: Tree<V>)
      requires Rep(sk, t)
      ensures t.Leaf? ==> sk.kids == []
    {
    }

    /** A root with one child gives way to it; an empty leaf at the root goes away. */
    method ShrinkRoot()
      requires root != null && tree.Some? && skel.Some? && Holds(skel.value, tree.value)
      requires tree.value.Inner? ==> tree.value.children != []
      modifies this`root, this`tree, this`skel
      ensures tree == Runs.ShrinkRoot(old(tree).value)
      ensures (root == null <==> tree.None?) && (tree.None? <==> skel.None?)
      ensures skel.Some? ==> Holds(skel.value, tree.value)
      ensures ChainOf(skel) == if tree.None? then [] else LeafNodes(old(skel).value)
      ensures Placed() <= old(Placed())
    {
      hide Chain, KidsRep;
      ghost var t := tree.value;
      if t.Inner? {
        KidsRepLength(skel.value.kids, t.children);
        KidAt(skel.value.kids, t.children, 0);
      }
      tree := Runs.ShrinkRoot(t);
      if !root.leaf && |root.children| == 1 {
        assert skel.value.kids == [skel.value.kids[0]];
        KidsOne(skel.value.kids[0]);
        root, skel := root.children[0], Some(skel.value.kids[0]);
      }
      if root.leaf && |root.keys| == 0 {
        root, skel := null, None;
      }
    }

    /** What a deletion does to the number of entries. */
    lemma {:induction false} DeleteCounts(root: Root<V>, key: int, order: int)
      requires order >= 2 && Good(root, order) && SolidIfLow(root) && TidyIfThree(root)
      ensures var es, r := Contents(root), After(root, DelOp(key), order);
              && (Runs.Delete(root, key, order).Some? <==> key in ToMap(es)) && |ToMap(es)| == |es|
              && Good(r, order) && SolidIfLow(r) && TidyIfThree(r) && ToMap(Contents(r)) == ToMap(es) - {key}
              && |Contents(r)| == |ToMap(Contents(r))| == |es| - if key in ToMap(es) then 1 else 0
      ensures root.None? ==> After(root, DelOp(key), order).None? && Contents(root) == [] && ToMap(Contents(root)) == map[]
    {
      AfterKeepsSolid(root, DelOp(key), order);
      AfterKeepsTidy(root, DelOp(key), order);
      DeleteOk(root, key, order);
      GoodIsSound(root, order);
      var es := Contents(root);
      hide Good, Contents, Runs.Delete, Find, Del, ToMap, SolidIfLow, TidyIfThree;
      MapSize(es);
      FindMeans(es, key);
      DelMeans(es, key);
      DelAscends(es, key);
      MapSize(Del(es, key));
    }

    // ---- lookup

    method FindLeaf(key: int) returns (leaf: Node?<V>)
      requires Valid()
      ensures leaf == null <==> root == null
      ensures leaf != null ==>
                && Good(tree, order) && Formed(tree.value, Height(tree.value))
                && var l := LeafFor(tree.value, Height(tree.value), key); leaf.keys == l.keys && leaf.values == l.values
      ensures leaf != null ==> StrictlySorted(leaf.keys) && |leaf.keys| == |leaf.values|
    {
      if root == null { return null; }
      var node := root;
      ghost var sk, t, h := skel.value, tree.value, Height(tree.value);
      GoodIsSorted(t, order);
      ghost var goal := LeafFor(t, h, key);
      hide Good, Chain, Distinct, LeafFor, KidsRep, Roots, KidNodes;
      while !node.leaf
        invariant sk.node == node && Rep(sk, t) && Nodes(sk) <= repr
        invariant Formed(t, h) && Sorted(t) && LeafFor(t, h, key) == goal
        decreases h
      {
        var idx := BisectRight(node.keys, key);
        KidAt(sk.kids, t.children, idx);
        KidIn(sk.kids, idx);
        LeafForStep(t, h, key, idx);
        node := node.children[idx];
        sk, t, h := sk.kids[idx], t.children[idx], h - 1;
      }
      LeafForStep(t, h, key, 0);
      leaf := node;
    }

    lemma {:induction false} LeafForStep(t: Tree<V>, h: nat, key: int, i: nat)
      requires Formed(t, h) && (t.Inner? ==> i == UpperBound(t.keys, key))
      ensures LeafFor(t, h, key) == if t.Leaf? then t else LeafFor(t.children[i], h - 1, key)
    {
    }

    method Get(key: int) returns (r: Option<V>)
      requires Valid()
      ensures r == if key in Entries() then Some(Entries()[key]) else None
    {
      GetMeans(tree, key, order);
      var leaf := FindLeaf(key);
      if leaf == null { return None; }
      var idx := Bisect(leaf.keys, key);
      if idx < |leaf.keys| && leaf.keys[idx] == key { return Some(leaf.values[idx]); }
      return None;
    }

    /** The leaves in chain order. */
    ghost function LeafChain(): seq<Node<V>>
      reads this`skel
    {
      ChainOf(skel)
    }

    /** The linked leaves, read forwards, list every entry once in strictly ascending key order. */
    lemma {:induction false} ChainListsEntries()
      requires Valid()
      ensures Linked(LeafChain()) && (forall n :: n in LeafChain() ==> n in repr)
      ensures Along(LeafChain()) == Contents(tree) && Ascending(Contents(tree)) && ToMap(Contents(tree)) == Entries()
      ensures tree.Some? ==> HoldLeaves(LeafChain(), Leaves(tree.value))
      ensures LeafChain() == [] <==> tree.None?
      ensures forall i :: 0 <= i < |LeafChain()| ==> LeafChain()[i].leaf && |LeafChain()[i].keys| == |LeafChain()[i].values|
    {
      GoodIsSound(tree, order);
      if tree.Some? {
        GoodIsFormed(tree.value, order);
        LeavesList(tree.value, Height(tree.value));
        LeavesHeld(skel.value, tree.value, Height(tree.value));
      }
    }

    /** A leaf that is not linked is not below the root. */
    lemma {:induction false} OutOfChain(x: Node<V>)
      requires Valid() && x.leaf && x !in LeafChain()
      ensures x !in Placed()
    {
      if x in Placed() {
        LeafListed(skel.value, tree.value, x);
      }
      hide Good, SolidIfLow, TidyIfThree, Nodes, LeafNodes;
    }

    /** The keys of the linked leaves are those of the tree's leaves, and lead to the values beside them. */
    lemma {:induction false} ChainKeys()
      requires Valid()
      ensures var c, ks := LeafChain(), KeysOf(tree);
              && |c| == |ks| && Linked(c) && (forall n :: n in c ==> n in repr)
              && forall i :: 0 <= i < |c| ==> c[i].leaf && c[i].keys == ks[i] && |c[i].values| == |ks[i]|
      ensures forall i, j :: 0 <= i < |LeafChain()| && 0 <= j < |LeafChain()[i].keys| ==> EntryIn(LeafChain()[i], j)
    {
      ChainListsEntries();
      if tree.Some? {
        GoodIsFormed(tree.value, order);
        KeysOfLeaves(tree.value, Height(tree.value));
      }
      hide Good, Contents, Along, ToMap, LeafChain, LeafKeys, Leaves, Holds;
      var c := LeafChain();
      forall i, j | 0 <= i < |c| && 0 <= j < |c[i].keys| ensures EntryIn(c[i], j) {
        InAlong(c, i, j);
        EntryFound(Contents(tree), (c[i].keys[j], c[i].values[j]));
      }
    }

    /** Entry j of the leaf is stored. */
    ghost predicate EntryIn(leaf: Node<V>, j: nat)
      reads this, leaf
    {
      j < |leaf.keys| == |leaf.values| && leaf.keys[j] in Entries() && Entries()[leaf.keys[j]] == leaf.values[j]
    }

    static lemma {:induction false} InAlong(c: seq<Node<V>>, i: nat, j: nat)
      requires forall i :: 0 <= i < |c| ==> |c[i].keys| == |c[i].values|
      requires i < |c| && j < |c[i].keys|
      ensures (c[i].keys[j], c[i].values[j]) in Along(c)
    {
      if i == 0 {
        assert Zip(c[0].keys, c[0].values)[j] in Zip(c[0].keys, c[0].values);
      } else {
        InAlong(c[1..], i - 1, j);
      }
    }

    static lemma {:induction false} EntryFound(es: Entries<V>, e: (int, V))
      requires Ascending(es) && e in es
      ensures e.0 in ToMap(es) && ToMap(es)[e.0] == e.1
    {
      MapDomain(es);
    }

    method MinLeaf() returns (leaf: Node?<V>)
      requires Valid()
      ensures leaf == if LeafChain() == [] then null else LeafChain()[0]
    {
      hide Good, Chain, Distinct, Rep, Nodes, LeafNodes, Height, SolidIfLow, TidyIfThree, Contents, Formed;
      if root == null { return null; }
      var node := root;
      ghost var sk, t, h := skel.value, tree.value, Height(tree.value);
      GoodIsFormed(t, order);
      LeavesHeld(sk, t, h);
      LeafOrInner(sk, t, h);
      while !node.leaf
        invariant sk.node == node && Rep(sk, t) && Formed(t, h) && (node.leaf ==> LeafNodes(sk) == [node])
        invariant LeafNodes(sk) != [] && LeafNodes(sk)[0] == LeafChain()[0]
        decreases h
      {
        FirstKid(sk, t, h);
        node := node.children[0];
        sk, t, h := sk.kids[0], t.children[0], h - 1;
        LeafOrInner(sk, t, h);
      }
      leaf := node;
    }

    method MaxLeaf() returns (leaf: Node?<V>)
      requires Valid()
      ensures leaf == if LeafChain() == [] then null else LeafChain()[|LeafChain()| - 1]
    {
      hide Good, Chain, Distinct, Rep, Nodes, LeafNodes, Height, SolidIfLow, TidyIfThree, Contents, Formed;
      if root == null { return null; }
      var node := root;
      ghost var sk, t, h := skel.value, tree.value, Height(tree.value);
      GoodIsFormed(t, order);
      LeavesHeld(sk, t, h);
      LeafOrInner(sk, t, h);
      ghost var last := LeafNodes(sk)[|LeafNodes(sk)| - 1];
      while !node.leaf
        invariant sk.node == node && Rep(sk, t) && Formed(t, h) && (node.leaf ==> LeafNodes(sk) == [node])
        invariant LeafNodes(sk) != [] && LeafNodes(sk)[|LeafNodes(sk)| - 1] == last
        decreases h
      {
        LastKid(sk, t, h);
        var n := |node.children| - 1;
        node := node.children[n];
        sk, t, h := sk.kids[n], t.children[n], h - 1;
        LeafOrInner(sk, t, h);
      }
      leaf := node;
    }

    lemma {:induction false} LeafOrInner(sk: Skel<V>, t: Tree<V>, h: nat)
      requires Rep(sk, t) && Formed(t, h)
      ensures sk.node.leaf ==> LeafNodes(sk) == [sk.node]
    {
    }

    lemma {:induction false} FirstKid(sk: Skel<V>, t: Tree<V>, h: nat)
      requires Rep(sk, t) && Formed(t, h) && !sk.node.leaf
      ensures h > 0 && t.Inner? && |sk.kids| > 0 && |t.children| > 0 && |sk.node.children| > 0
      ensures var k := sk.kids[0]; var ls := LeafNodes(k);
              && Rep(k, t.children[0]) && Formed(t.children[0], h - 1) && sk.node.children[0] == k.node
              && ls != [] && LeafNodes(sk) != [] && LeafNodes(sk)[0] == ls[0]
    {
      KidAt(sk.kids, t.children, 0);
      LeavesHeld(sk.kids[0], t.children[0], h - 1);
      hide KidsRep, Rep, Formed;
    }

    lemma {:induction false} LastKid(sk: Skel<V>, t: Tree<V>, h: nat)
      requires Rep(sk, t) && Formed(t, h) && !sk.node.leaf
      ensures h > 0 && t.Inner? && |sk.kids| == |t.children| == |sk.node.children| > 0
      ensures var n := |t.children| - 1; var k := sk.kids[n]; var ls, ks := LeafNodes(sk), LeafNodes(k);
              && Rep(k, t.children[n]) && Formed(t.children[n], h - 1) && sk.node.children[n] == k.node
              && ks != [] && ls != [] && ls[|ls| - 1] == ks[|ks| - 1]
    {
      var n := |t.children| - 1;
      KidsRepLength(sk.kids, t.children);
      KidAt(sk.kids, t.children, n);
      LeavesHeld(sk.kids[n], t.children[n], h - 1);
      LastKidLeaf(sk);
      hide KidsRep, Rep, Formed, LeafNodes;
    }

    lemma {:induction false} LastKidLeaf(sk: Skel<V>)
      requires sk.kids != [] && LeafNodes(sk.kids[|sk.kids| - 1]) != []
      ensures var n := |sk.kids| - 1; var ls, ks := LeafNodes(sk), LeafNodes(sk.kids[n]);
              ls != [] && ls[|ls| - 1] == ks[|ks| - 1]
    {
      var n := |sk.kids| - 1;
      var a, k := sk.kids[..n], sk.kids[n];
      assert sk.kids == a + [k];
      assert LeafNodes(sk) == KidLeaves(sk.kids);
      hide KidLeaves, LeafNodes;
      KidsAppend(a, [k]);
      KidsOne(k);
      assert LeafNodes(sk) == KidLeaves(a) + LeafNodes(k);
    }

    static lemma {:induction false} HeldAt(c: seq<Node<V>>, ls: seq<Tree<V>>, i: nat)
      requires HoldLeaves(c, ls) && i < |c|
      ensures |ls| == |c| && ls[i].Leaf? && c[i].keys == ls[i].keys && c[i].values == ls[i].values
    {
    }

    /** The outermost leaves in memory are those of the tree. */
    lemma {:induction false} OutermostLeaves()
      requires Valid()
      ensures LeafChain() == [] <==> tree.None?
      ensures tree.Some? ==>
                var c, ls := LeafChain(), Leaves(tree.value);
                && |c| == |ls| > 0 && c[0].keys == ls[0].keys && ls[0].Leaf? && c[0].values == ls[0].values
                && |ls[0].keys| == |ls[0].values|
                && var n := |c| - 1;
                   c[n].keys == ls[n].keys && ls[n].Leaf? && c[n].values == ls[n].values && |ls[n].keys| == |ls[n].values|
    {
      hide Contents, SolidIfLow, TidyIfThree, Height, Along, ToMap, Leaves;
      ChainListsEntries();
      if tree.Some? {
        var c, ls := LeafChain(), Leaves(tree.value);
        HeldAt(c, ls, 0);
        HeldAt(c, ls, |c| - 1);
      }
    }

    /** The entry with the least key, unless the tree has three levels or more and its first leaf is empty. */
    method MinEntry() returns (r: Option<(int, V)>)
      requires Valid()
      ensures tree.Some? ==> Formed(tree.value, Height(tree.value))
      ensures r == BPlusShape.MinEntry(tree)
      ensures (tree.Some? && Height(tree.value) >= 2) || r == First(Contents(tree))
    {
      hide Leaves, LeafChain, Good, Height, Contents, First, SolidIfLow, TidyIfThree, Holds;
      var leaf := MinLeaf();
      OutermostLeaves();
      LowHasTrueExtremes(tree, order);
      if leaf == null || |leaf.keys| == 0 { return None; }
      return Some((leaf.keys[0], leaf.values[0]));
    }

    method MaxEntry() returns (r: Option<(int, V)>)
      requires Valid()
      ensures tree.Some? ==> Formed(tree.value, Height(tree.value))
      ensures r == BPlusShape.MaxEntry(tree)
      ensures (tree.Some? && Height(tree.value) >= 2) || r == Last(Contents(tree))
    {
      hide Leaves, LeafChain, Good, Height, Contents, Last, SolidIfLow, TidyIfThree, Holds;
      var leaf := MaxLeaf();
      OutermostLeaves();
      LowHasTrueExtremes(tree, order);
      if leaf == null || |leaf.keys| == 0 { return None; }
      var last := |leaf.keys| - 1;
      return Some((leaf.keys[last], leaf.values[last]));
    }

    method Bisect(keys: seq<int>, key: int) returns (lo: nat)
      requires StrictlySorted(keys)
      ensures lo == LowerBound(keys, key)
    {
      lo := 0;
      var hi := |keys|;
      while lo < hi
        invariant lo <= LowerBound(keys, key) <= hi <= |keys|
      {
        var mid := (lo + hi) / 2;
        if keys[mid] < key { lo := mid + 1; } else { hi := mid; }
      }
    }

    method BisectRight(keys: seq<int>, key: int) returns (lo: nat)
      requires StrictlySorted(keys)
      ensures lo == UpperBound(keys, key)
    {
      lo := 0;
      var hi := |keys|;
      while lo < hi
        invariant lo <= UpperBound(keys, key) <= hi <= |keys|
      {
        var mid := (lo + hi) / 2;
        if keys[mid] <= key { lo := mid + 1; } else { hi := mid; }
      }
    }

    // ---- splits

    /** Links a new leaf in behind an old one. */
    method LinkAfter(node: Node<V>, right: Node<V>, ghost c: seq<Node<V>>, ghost n: nat, ghost d: seq<Node<V>>)
      requires Linked(c) && n < |c| && c[n] == node && right !in c && HasNew(d, c, n + 1, right)
      requires right.prev == node && right.next == node.next
      modifies node`next, c[n + 1..]`prev
      ensures Linked(d)
    {
      NewNoDup(d, c, n + 1, right);
      if node.next != null {
        node.next.prev := right;
      }
      node.next := right;
      forall i | 0 <= i < |d| ensures d[i].next == At(d, i + 1) && d[i].prev == At(d, i - 1) {
        if i <= n {
          assert d[i] == c[i];
        } else if i > n + 1 {
          assert d[i] == c[i - 1];
        }
      }
    }

    method SplitLeaf(node: Node<V>, ghost pre: seq<Node<V>>, ghost post: seq<Node<V>>) returns (right: Node<V>)
      requires node.leaf && |node.keys| == |node.values| >= 2
      requires Chain(pre + [node] + post, repr)
      modifies node, post`prev, this`repr
      ensures fresh(right) && repr == old(repr) + {right} && right.leaf && |right.keys| > 0
      ensures Model.SplitLeaf(old(node.keys), old(node.values)) ==
              Splits(Leaf(node.keys, node.values), right.keys[0], Leaf(right.keys, right.values))
      ensures Chain(pre + [node, right] + post, repr)
    {
      hide HasNew, Linked;
      var mid := (|node.keys| + 1) / 2;
      right := new Node.Leaf(node.keys[mid..], node.values[mid..], node, node.next);
      node.keys, node.values := node.keys[..mid], node.values[..mid];
      NewBehind(pre, node, right, post);
      repr := repr + {right};
      LinkAfter(node, right, pre + [node] + post, |pre|, pre + [node, right] + post);
    }

    method SplitInner(node: Node<V>, ghost sk: Skel<V>, ghost t: Tree<V>, ghost repr: set<Node<V>>)
      returns (key: int, right: Node<V>, ghost l: Skel<V>, ghost r: Skel<V>)
      requires sk.node == node && Rep(sk, t) && Distinct(sk) && Nodes(sk) <= repr
      requires t.Inner? && |t.keys| >= 2 && |t.children| == |t.keys| + 1
      modifies node`keys, node`children
      ensures fresh(right) && l.node == node && r.node == right
      ensures var s := Model.SplitInner(t.keys, t.children); key == s.key && Rep(l, s.left) && Rep(r, s.right)
      ensures Distinct(l) && Distinct(r) && Nodes(l) !! Nodes(r) && Nodes(l) + Nodes(r) == Nodes(sk) + {right}
      ensures LeafNodes(l) + LeafNodes(r) == LeafNodes(sk)
    {
      hide KidsRep, KidsDistinct, KidNodes, KidLeaves, Roots;
      KidsRepLength(sk.kids, t.children);
      var n := |node.keys| / 2;
      ghost var a, b, ta, tb := sk.kids[..n + 1], sk.kids[n + 1..], t.children[..n + 1], t.children[n + 1..];
      assert sk.kids == a + b && t.children == ta + tb;
      KidsAppend(a, b);
      KidsRepAppend(a, b, ta, tb);
      key := node.keys[n];
      right := new Node.Inner(node.keys[n + 1..], node.children[n + 1..]);
      node.keys, node.children := node.keys[..n], node.children[..n + 1];
      l, r := Skel(node, a), Skel(right, b);
      assert Rep(l, Inner(t.keys[..n], ta)) && Rep(r, Inner(t.keys[n + 1..], tb));
    }

    method InsertIntoLeaf(node: Node<V>, key: int, value: V, ghost t: Tree<V>, ghost pre: seq<Node<V>>, ghost post: seq<Node<V>>)
      returns (split: Option<Half<V>>, ghost ks: seq<Skel<V>>)
      requires order >= 2 && t.Leaf? && Formed(t, 0) && Sorted(t) && Rep(Skel(node, []), t) && node in repr
      requires Chain(pre + [node] + post, repr)
      modifies this`size, this`repr, node, post`prev
      ensures fresh(repr - old(repr)) && old(repr) <= repr
      ensures Reported(split, node, ks, Model.InsertInto(t, 0, key, value, order))
      ensures KidsRep(ks, Outs(Model.InsertInto(t, 0, key, value, order)))
      ensures KidsDistinct(ks) && KidNodes(ks) <= {node} + (repr - old(repr))
      ensures Chain(pre + KidLeaves(ks) + post, repr)
      ensures size == old(size) + if HasKey(t, 0, key) then 0 else 1
    {
      hide Chain, KidsRep, KidsDistinct, KidNodes, KidLeaves, Rep, Formed, Sorted, Reported, HasKey, Model.InsertInto;
      LeafInsert(node, key, value, t);
      var idx := Bisect(node.keys, key);
      if idx < |node.keys| && node.keys[idx] == key {
        split, ks := None, [Skel(node, [])];
        node.values := node.values[idx := value];
        LeafStands(node);
        OneLeaf(node, Leaf(node.keys, node.values));
        return;
      }
      node.keys, node.values := Spliced(node.keys, idx, key), Spliced(node.values, idx, value);
      size := size + 1;
      if |node.keys| > order - 1 {
        split, ks := SplitOverfull(node, pre, post);
      } else {
        split, ks := None, [Skel(node, [])];
        LeafStands(node);
        OneLeaf(node, Leaf(node.keys, node.values));
      }
    }

    /** What inserting into a leaf comes to. */
    lemma {:induction false} LeafInsert(node: Node<V>, key: int, value: V, t: Tree<V>)
      requires order >= 2 && t.Leaf? && Formed(t, 0) && Sorted(t) && Rep(Skel(node, []), t)
      ensures node.leaf && node.keys == t.keys && node.values == t.values && |t.keys| == |t.values| && StrictlySorted(t.keys)
      ensures var i := LowerBound(t.keys, key); var found := i < |t.keys| && t.keys[i] == key;
              && HasKey(t, 0, key) == found
              && Model.InsertInto(t, 0, key, value, order)
                 == if found then Fits(Leaf(t.keys, t.values[i := value]))
                    else if |t.keys| + 1 > order - 1 then Model.SplitLeaf(Spliced(t.keys, i, key), Spliced(t.values, i, value))
                    else Fits(Leaf(Spliced(t.keys, i, key), Spliced(t.values, i, value)))
    {
      hide Model.SplitLeaf;
    }

    lemma {:induction false} LeafStands(node: Node<V>)
      requires node.leaf
      ensures Rep(Skel(node, []), Leaf(node.keys, node.values)) && Reported(None, node, [Skel(node, [])], Fits(Leaf(node.keys, node.values)))
    {
    }

    method SplitOverfull(node: Node<V>, ghost pre: seq<Node<V>>, ghost post: seq<Node<V>>)
      returns (split: Option<Half<V>>, ghost ks: seq<Skel<V>>)
      requires node.leaf && |node.keys| == |node.values| >= 2 && node in repr
      requires Chain(pre + [node] + post, repr)
      modifies this`repr, node, post`prev
      ensures fresh(repr - old(repr)) && old(repr) <= repr
      ensures Reported(split, node, ks, Model.SplitLeaf(old(node.keys), old(node.values)))
      ensures KidsRep(ks, Outs(Model.SplitLeaf(old(node.keys), old(node.values))))
      ensures KidsDistinct(ks) && KidNodes(ks) <= {node} + (repr - old(repr))
      ensures Chain(pre + KidLeaves(ks) + post, repr)
    {
      hide Chain, KidsRep, KidsDistinct, KidNodes, KidLeaves, Nodes, LeafNodes, Distinct, Model.SplitLeaf;
      var right := SplitLeaf(node, pre, post);
      split, ks := Some(Half(right.keys[0], node, right)), [Skel(node, []), Skel(right, [])];
      TwoLeaves(node, right, Leaf(node.keys, node.values), Leaf(right.keys, right.values));
    }

    /** The parent takes in what became of its child i. */
    method AfterChild(node: Node<V>, i: nat, below: Option<Half<V>>, ghost t: Tree<V>, ghost r: Insertion<V>,
                      ghost a: seq<Skel<V>>, ghost m: seq<Skel<V>>, ghost b: seq<Skel<V>>)
      returns (split: Option<Half<V>>, ghost ks: seq<Skel<V>>)
      requires order >= 2 && t.Inner? && !node.leaf && node.keys == t.keys && i == |a| < |t.children| == |t.keys| + 1
      requires |m| > 0 && Reported(below, m[0].node, m, r) && node.children == Roots(a) + [m[0].node] + Roots(b)
      requires KidsRep(a, t.children[..i]) && KidsRep(m, Outs(r)) && KidsRep(b, t.children[i + 1..])
      requires Distinct(Skel(node, a + m + b)) && Nodes(Skel(node, a + m + b)) <= repr
      modifies this`repr, node`keys, node`children
      ensures fresh(repr - old(repr)) && old(repr) <= repr
      ensures Reported(split, node, ks, Model.AfterChild(t, i, r, order))
      ensures KidsRep(ks, Outs(Model.AfterChild(t, i, r, order)))
      ensures KidsDistinct(ks) && KidNodes(ks) <= Nodes(Skel(node, a + m + b)) + (repr - old(repr))
      ensures KidLeaves(ks) == KidLeaves(a + m + b)
    {
      hide KidsRep, KidsDistinct, KidNodes, KidLeaves, Roots, Spliced;
      ghost var sk := Skel(node, a + m + b);
      ghost var u := if r.Fits? then Inner(t.keys, t.children[i := r.tree]) else WithHalves(t, i, r.left, r.key, r.right);
      KidsRepLength(b, t.children[i + 1..]);
      Append3(a, m, b);
      RepAppend3(a, m, b, t.children[..i], Outs(r), t.children[i + 1..]);
      assert u.children == t.children[..i] + Outs(r) + t.children[i + 1..];
      split, ks := None, [sk];
      if below.Some? {
        var half := below.value;
        assert m == [m[0], m[1]];
        KidsTwo(m[0], m[1]);
        assert node.children[..i] == Roots(a) && node.children[i + 1..] == Roots(b);
        node.keys := Spliced(node.keys, i, half.key);
        node.children := node.children[..i] + [half.left, half.right] + node.children[i + 1..];
        assert Rep(sk, u);
        if |node.keys| > order - 1 {
          var key, right, l, q := SplitInner(node, sk, u, repr);
          repr := repr + {right};
          split, ks := Some(Half(key, node, right)), [l, q];
          KidsTwo(l, q);
          ghost var out := Model.SplitInner(u.keys, u.children);
          KidsRepTwo(l, q, out.left, out.right);
          return;
        }
      } else {
        assert m == [m[0]];
        KidsOne(m[0]);
        assert Rep(sk, u);
      }
      KidsOne(sk);
      KidsRepOne(sk, u);
    }
  
    method InsertInto(node: Node<V>, key: int, value: V, ghost sk: Skel<V>, ghost t: Tree<V>, ghost h: nat,
                      ghost pre: seq<Node<V>>, ghost post: seq<Node<V>>)
      returns (split: Option<Half<V>>, ghost ks: seq<Skel<V>>)
      requires order >= 2 && Formed(t, h) && Sorted(t) && sk.node == node && Rep(sk, t)
      requires Distinct(sk) && Nodes(sk) <= repr && Chain(pre + LeafNodes(sk) + post, repr)
      modifies this`size, this`repr, Nodes(sk), post`prev
      ensures fresh(repr - old(repr)) && old(repr) <= repr
      ensures Reported(split, node, ks, Model.InsertInto(t, h, key, value, order))
      ensures KidsRep(ks, Outs(Model.InsertInto(t, h, key, value, order)))
      ensures KidsDistinct(ks) && KidNodes(ks) <= Nodes(sk) + (repr - old(repr))
      ensures Chain(pre + KidLeaves(ks) + post, repr)
      ensures size == old(size) + if HasKey(t, h, key) then 0 else 1
      decreases h, 1
    {
      hide KidsRep, KidsDistinct, KidNodes, KidLeaves, Chain;
      if node.leaf {
        assert sk == Skel(node, []);
        LeafSkel(node);
        split, ks := InsertIntoLeaf(node, key, value, t, pre, post);
      } else {
        split, ks := InsertIntoInner(node, key, value, sk, t, h, pre, post);
      }
    }

    method InsertIntoInner(node: Node<V>, key: int, value: V, ghost sk: Skel<V>, ghost t: Tree<V>, ghost h: nat,
                      ghost pre: seq<Node<V>>, ghost post: seq<Node<V>>)
      returns (split: Option<Half<V>>, ghost ks: seq<Skel<V>>)
      requires order >= 2 && Formed(t, h) && Sorted(t) && sk.node == node && Rep(sk, t) && t.Inner?
      requires Distinct(sk) && Nodes(sk) <= repr && Chain(pre + LeafNodes(sk) + post, repr)
      modifies this`size, this`repr, Nodes(sk), post`prev
      ensures fresh(repr - old(repr)) && old(repr) <= repr
      ensures Reported(split, node, ks, Model.InsertInto(t, h, key, value, order))
      ensures KidsRep(ks, Outs(Model.InsertInto(t, h, key, value, order)))
      ensures KidsDistinct(ks) && KidNodes(ks) <= Nodes(sk) + (repr - old(repr))
      ensures Chain(pre + KidLeaves(ks) + post, repr)
      ensures size == old(size) + if HasKey(t, h, key) then 0 else 1
      decreases h, 0
    {
      hide KidsRep, KidsDistinct, KidNodes, KidLeaves, Roots, Chain, Rep, Formed, Sorted, HasKey, Reported, LeafNodes,
        Model.AfterChild, Model.InsertInto;
      InnerStands(sk, t, h);
      InsertStep(t, h, key, value);
      var i := BisectRight(node.keys, key);
      ChildReady(sk, t, i, h);
      RegroupAround(sk, i, pre, post);
      ghost var a, k, b := sk.kids[..i], sk.kids[i], sk.kids[i + 1..];
      KidsAround(sk, i);
      Append3(a, [k], b);
      KidsOne(k);
      ghost var A, B := KidLeaves(a), KidLeaves(b);
      var below;
      ghost var m;
      below, m := InsertInto(node.children[i], key, value, k, t.children[i], h - 1, pre + A, B + post);
      ReportedFirst(below, k.node, m, Model.InsertInto(t.children[i], h - 1, key, value, order));
      Append3(a, m, b);
      Regroup(pre, A, KidLeaves(m), B, post);
      ghost var ns := repr;
      split, ks := AfterChild(node, i, below, t, Model.InsertInto(t.children[i], h - 1, key, value, order), a, m, b);
      ChainGrows(pre + KidLeaves(ks) + post, ns, repr);
    }

    /** What an insertion below an inner node comes to. */
    lemma {:induction false} InsertStep(t: Tree<V>, h: nat, key: int, value: V)
      requires order >= 2 && Formed(t, h) && t.Inner?
      ensures var i := UpperBound(t.keys, key);
              && h > 0 && i < |t.children| && Formed(t.children[i], h - 1)
              && Model.InsertInto(t, h, key, value, order) == Model.AfterChild(t, i, Model.InsertInto(t.children[i], h - 1, key, value, order), order)
              && HasKey(t, h, key) == HasKey(t.children[i], h - 1, key)
    {
      hide Model.AfterChild;
    }

    lemma {:induction false} KidsAround(sk: Skel<V>, i: nat)
      requires i < |sk.kids|
      ensures sk.kids == sk.kids[..i] + [sk.kids[i]] + sk.kids[i + 1..]
    {
    }

    lemma {:induction false} ReportedFirst(split: Option<Half<V>>, node: Node<V>, ks: seq<Skel<V>>, r: Insertion<V>)
      requires Reported(split, node, ks, r)
      ensures ks != [] && ks[0].node == node
    {
    }
  
    // ---- rebalancing: first what happens between two siblings

    /** Takes the second of two linked leaves out of the chain. */
    method UnlinkAfter(left: Node<V>, right: Node<V>, ghost c: seq<Node<V>>, ghost n: nat, ghost d: seq<Node<V>>)
      requires Linked(c) && n + 1 < |c| && c[n] == left && c[n + 1] == right && HasNew(c, d, n + 1, right)
      modifies left`next, c[n + 2..]`prev
      ensures Linked(d)
    {
      OldNoDup(c, d, n + 1, right);
      left.next := right.next;
      if right.next != null {
        right.next.prev := left;
      }
      forall i | 0 <= i < |d| ensures d[i].next == At(d, i + 1) && d[i].prev == At(d, i - 1) {
        if i <= n {
          assert d[i] == c[i];
        } else {
          assert d[i] == c[i + 1];
        }
      }
    }

    method BorrowLeafFromLeft(left: Node<V>, child: Node<V>, ghost l: Tree<V>, ghost s: int, ghost r: Tree<V>)
      requires left != child && Rep(Skel(left, []), l) && Rep(Skel(child, []), r) && l.Leaf? && r.Leaf?
      requires Formed(l, 0) && Formed(r, 0) && |l.keys| >= 1
      modifies left`keys, left`values, child`keys, child`values
      ensures var p := ShiftRight(l, s, r, 0);
              Rep(Skel(left, []), p.left) && Rep(Skel(child, []), p.right) && p.key == child.keys[0]
    {
      var n := |left.keys| - 1;
      child.keys, child.values := [left.keys[n]] + child.keys, [left.values[n]] + child.values;
      left.keys, left.values := left.keys[..n], left.values[..n];
    }

    method BorrowLeafFromRight(child: Node<V>, right: Node<V>, ghost l: Tree<V>, ghost s: int, ghost r: Tree<V>)
      requires right != child && Rep(Skel(child, []), l) && Rep(Skel(right, []), r) && l.Leaf? && r.Leaf?
      requires Formed(l, 0) && Formed(r, 0) && |r.keys| >= 2
      modifies child`keys, child`values, right`keys, right`values
      ensures var p := ShiftLeft(l, s, r, 0);
              Rep(Skel(child, []), p.left) && Rep(Skel(right, []), p.right) && p.key == right.keys[0]
    {
      child.keys, child.values := child.keys + [right.keys[0]], child.values + [right.values[0]];
      right.keys, right.values := right.keys[1..], right.values[1..];
    }

    static lemma {:induction false} NotBehind(pre: seq<Node<V>>, left: Node<V>, right: Node<V>, post: seq<Node<V>>, ns: set<Node<V>>)
      requires Chain(pre + [left, right] + post, ns)
      ensures right !in post
    {
      var c := pre + [left, right] + post;
      forall i | 0 <= i < |post| ensures post[i] != right {
        assert c[|pre| + 1] == right && c[|pre| + 2 + i] == post[i];
      }
    }

    method MergeLeaves(left: Node<V>, right: Node<V>, ghost l: Tree<V>, ghost s: int, ghost r: Tree<V>,
                       ghost pre: seq<Node<V>>, ghost post: seq<Node<V>>)
      requires left != right && Rep(Skel(left, []), l) && Rep(Skel(right, []), r) && l.Leaf? && r.Leaf?
      requires Formed(l, 0) && Formed(r, 0) && Chain(pre + [left, right] + post, repr)
      modifies left`keys, left`values, left`next, post`prev
      ensures var p := Merge(l, s, r, 0); p.One? && Rep(Skel(left, []), p.tree)
      ensures Chain(pre + [left] + post, repr) && Untouched(right)
    {
      hide Linked, HasNew;
      NotBehind(pre, left, right, post, repr);
      left.keys, left.values := left.keys + right.keys, left.values + right.values;
      NewBehind(pre, left, right, post);
      UnlinkAfter(left, right, pre + [left, right] + post, |pre|, pre + [left] + post);
    }

    method BorrowChildFromLeft(left: Node<V>, child: Node<V>, s: int, ghost lk: Skel<V>, ghost rk: Skel<V>,
                               ghost l: Tree<V>, ghost r: Tree<V>, ghost h: nat)
      returns (sep: int, ghost lk': Skel<V>, ghost rk': Skel<V>)
      requires lk.node == left && rk.node == child && Rep(lk, l) && Rep(rk, r) && l.Inner? && r.Inner?
      requires Formed(l, h) && Formed(r, h) && |l.keys| >= 1
      requires Distinct(lk) && Distinct(rk) && Nodes(lk) !! Nodes(rk)
      modifies left`keys, left`children, child`keys, child`children
      ensures var p := ShiftRight(l, s, r, h);
              lk'.node == left && rk'.node == child && Rep(lk', p.left) && Rep(rk', p.right) && p.key == sep
      ensures Distinct(lk') && Distinct(rk') && Nodes(lk') !! Nodes(rk') && Nodes(lk') + Nodes(rk') == Nodes(lk) + Nodes(rk)
      ensures LeafNodes(lk') + LeafNodes(rk') == LeafNodes(lk) + LeafNodes(rk)
    {
      hide KidsRep, KidsDistinct, KidNodes, KidLeaves, Roots;
      var n := |left.keys| - 1;
      KidsRepLength(lk.kids, l.children);
      KidsRepLength(rk.kids, r.children);
      ghost var a, k, b := lk.kids[..n + 1], [lk.kids[n + 1]], rk.kids;
      assert lk.kids == a + k && l.children == l.children[..n + 1] + [l.children[n + 1]];
      KidsAppend(a, k);
      KidsAppend(k, b);
      KidsRepAppend(a, k, l.children[..n + 1], [l.children[n + 1]]);
      KidsRepAppend(k, b, [l.children[n + 1]], r.children);
      sep := left.keys[n];
      child.keys, child.children := [s] + child.keys, [left.children[n + 1]] + child.children;
      left.keys, left.children := left.keys[..n], left.children[..n + 1];
      lk', rk' := Skel(left, a), Skel(child, k + b);
    }
  
    method BorrowChildFromRight(child: Node<V>, right: Node<V>, s: int, ghost lk: Skel<V>, ghost rk: Skel<V>,
                                ghost l: Tree<V>, ghost r: Tree<V>, ghost h: nat)
      returns (sep: int, ghost lk': Skel<V>, ghost rk': Skel<V>)
      requires lk.node == child && rk.node == right && Rep(lk, l) && Rep(rk, r) && l.Inner? && r.Inner?
      requires Formed(l, h) && Formed(r, h) && |r.keys| >= 2
      requires Distinct(lk) && Distinct(rk) && Nodes(lk) !! Nodes(rk)
      modifies child`keys, child`children, right`keys, right`children
      ensures var p := ShiftLeft(l, s, r, h);
              lk'.node == child && rk'.node == right && Rep(lk', p.left) && Rep(rk', p.right) && p.key == sep
      ensures Distinct(lk') && Distinct(rk') && Nodes(lk') !! Nodes(rk') && Nodes(lk') + Nodes(rk') == Nodes(lk) + Nodes(rk)
      ensures LeafNodes(lk') + LeafNodes(rk') == LeafNodes(lk) + LeafNodes(rk)
    {
      hide KidsRep, KidsDistinct, KidNodes, KidLeaves, Roots;
      KidsRepLength(lk.kids, l.children);
      KidsRepLength(rk.kids, r.children);
      ghost var a, k, b := lk.kids, [rk.kids[0]], rk.kids[1..];
      assert rk.kids == k + b && r.children == [r.children[0]] + r.children[1..];
      KidsAppend(a, k);
      KidsAppend(k, b);
      KidsRepAppend(a, k, l.children, [r.children[0]]);
      KidsRepAppend(k, b, [r.children[0]], r.children[1..]);
      sep := right.keys[0];
      child.keys, child.children := child.keys + [s], child.children + [right.children[0]];
      right.keys, right.children := right.keys[1..], right.children[1..];
      lk', rk' := Skel(child, a + k), Skel(right, b);
    }

    method MergeInners(left: Node<V>, right: Node<V>, s: int, ghost lk: Skel<V>, ghost rk: Skel<V>,
                       ghost l: Tree<V>, ghost r: Tree<V>, ghost h: nat)
      returns (ghost k: Skel<V>)
      requires lk.node == left && rk.node == right && Rep(lk, l) && Rep(rk, r) && l.Inner? && r.Inner?
      requires Formed(l, h) && Formed(r, h) && Distinct(lk) && Distinct(rk) && Nodes(lk) !! Nodes(rk)
      modifies left`keys, left`children
      ensures k.node == left && Rep(k, Merge(l, s, r, h).tree)
      ensures Distinct(k) && Nodes(k) <= Nodes(lk) + Nodes(rk) && LeafNodes(k) == LeafNodes(lk) + LeafNodes(rk)
    {
      hide KidsRep, KidsDistinct, KidNodes, KidLeaves, Roots;
      KidsRepLength(lk.kids, l.children);
      KidsRepLength(rk.kids, r.children);
      KidsAppend(lk.kids, rk.kids);
      KidsRepAppend(lk.kids, rk.kids, l.children, r.children);
      left.keys, left.children := left.keys + [s] + right.keys, left.children + right.children;
      k := Skel(left, lk.kids + rk.kids);
    }

    // ---- then what the parent records of it

    /** Two siblings exchanged items: the parent has a new separator between them. */
    method SetSeparator(parent: Node<V>, j: nat, sep: int, ghost sk: Skel<V>, ghost t: Tree<V>, ghost p: Pair<V>,
                        ghost lk: Skel<V>, ghost rk: Skel<V>)
      returns (ghost sk': Skel<V>)
      requires sk.node == parent && t.Inner? && |sk.kids| == |t.children| == |t.keys| + 1 && j < |t.keys| && !parent.leaf
      requires parent.keys == t.keys && parent.children == Roots(sk.kids) && Distinct(sk)
      requires KidsRep(sk.kids[..j], t.children[..j]) && KidsRep(sk.kids[j + 2..], t.children[j + 2..])
      requires p.Two? && p.key == sep && Rep(lk, p.left) && Rep(rk, p.right)
      requires lk.node == sk.kids[j].node && rk.node == sk.kids[j + 1].node
      requires Distinct(lk) && Distinct(rk) && Nodes(lk) !! Nodes(rk)
      requires Nodes(lk) + Nodes(rk) <= Nodes(sk.kids[j]) + Nodes(sk.kids[j + 1])
      requires LeafNodes(lk) + LeafNodes(rk) == LeafNodes(sk.kids[j]) + LeafNodes(sk.kids[j + 1])
      modifies parent`keys
      ensures sk'.node == parent && Rep(sk', WithPair(t, j, p))
      ensures Distinct(sk') && Nodes(sk') <= Nodes(sk) && LeafNodes(sk') == LeafNodes(sk)
    {
      hide KidsRep, KidsDistinct, KidNodes, KidLeaves, Roots, Distinct, Rep, Nodes, LeafNodes;
      ghost var a, b := sk.kids[..j], sk.kids[j + 2..];
      PairApart(sk, j);
      KidsTwo(lk, rk);
      PairPutApart(parent, a, [lk, rk], b);
      parent.keys := parent.keys[j := sep];
      KidsRepTwo(lk, rk, p.left, p.right);
      PairPut(parent, a, [lk, rk], b, t, j, p);
      sk' := Skel(parent, a + [lk, rk] + b);
    }
  
    /** The second of two siblings was merged into the first: the parent loses it and the separator between them. */
    method DropSeparator(parent: Node<V>, j: nat, ghost sk: Skel<V>, ghost t: Tree<V>, ghost p: Pair<V>, ghost k: Skel<V>)
      returns (ghost sk': Skel<V>)
      requires sk.node == parent && t.Inner? && |sk.kids| == |t.children| == |t.keys| + 1 && j < |t.keys| && !parent.leaf
      requires parent.keys == t.keys && parent.children == Roots(sk.kids) && Distinct(sk)
      requires KidsRep(sk.kids[..j], t.children[..j]) && KidsRep(sk.kids[j + 2..], t.children[j + 2..])
      requires p.One? && Rep(k, p.tree) && k.node == sk.kids[j].node
      requires Distinct(k) && Nodes(k) <= Nodes(sk.kids[j]) + Nodes(sk.kids[j + 1])
      modifies parent`keys, parent`children
      ensures sk'.node == parent && Rep(sk', WithPair(t, j, p))
      ensures Distinct(sk') && Nodes(sk') <= Nodes(sk) && Nodes(sk') !! Nodes(sk.kids[j + 1]) - Nodes(k)
      ensures LeafNodes(sk') == KidLeaves(sk.kids[..j]) + LeafNodes(k) + KidLeaves(sk.kids[j + 2..])
    {
      hide KidsRep, KidsDistinct, KidNodes, KidLeaves, Roots, Distinct, Rep, Nodes, LeafNodes;
      ghost var a, b := sk.kids[..j], sk.kids[j + 2..];
      PairApart(sk, j);
      KidsOne(k);
      PairPutApart(parent, a, [k], b);
      WithoutSecond(Roots(a), k.node, sk.kids[j + 1].node, Roots(b));
      parent.keys, parent.children := Without(parent.keys, j), Without(parent.children, j + 1);
      KidsRepOne(k, p.tree);
      PairPut(parent, a, [k], b, t, j, p);
      sk' := Skel(parent, a + [k] + b);
    }

    lemma {:induction false} WithoutSecond<T>(a: seq<T>, x: T, y: T, b: seq<T>)
      ensures Without(a + [x, y] + b, |a| + 1) == a + [x] + b
    {
    }

    // ---- rebalancing

    method RebalanceLeaf(parent: Node<V>, idx: nat, ghost sk: Skel<V>, ghost t: Tree<V>,
                         ghost pre: seq<Node<V>>, ghost post: seq<Node<V>>)
      returns (ghost sk': Skel<V>)
      requires order >= 2 && sk.node == parent && Rep(sk, t) && Distinct(sk) && Nodes(sk) <= repr
      requires Formed(t, 1) && t.Inner? && idx < |t.children| && Chain(pre + LeafNodes(sk) + post, repr)
      modifies Nodes(sk), post`prev
      ensures sk'.node == parent && Rep(sk', Rebalance(t, 1, idx, order / 2))
      ensures Distinct(sk') && Nodes(sk') <= Nodes(sk) && Chain(pre + LeafNodes(sk') + post, repr)
      ensures |LeafNodes(sk)| == |t.children| && LeafNodes(sk') == Shorter(LeafNodes(sk), idx, RepairAt(t.children, idx, order / 2))
      ensures idx < |sk.kids| && (RepairAt(t.children, idx, order / 2) == IntoLeft ==>
                                    sk.kids[idx].node !in Nodes(sk') && Untouched(sk.kids[idx].node))
    {
      hide KidsRep, KidsDistinct, KidNodes, KidLeaves, Roots, Chain, LeafNodes, WithPair, ShiftLeft, ShiftRight, Merge,
        Distinct, Nodes, Without, Rep, Formed;
      LeafCount(sk, t);
      FormedChildren(t, 1);
      Beside(sk, t, idx);
      sk' := sk;
      if idx > 0 && |parent.children[idx - 1].keys| > order / 2 {
        sk' := LeafFromLeft(parent, idx, sk, t);
      } else if idx + 1 < |parent.children| && |parent.children[idx + 1].keys| > order / 2 {
        sk' := LeafFromRight(parent, idx, sk, t);
      } else if idx > 0 {
        sk' := JoinLeafAt(parent, idx - 1, sk, t, pre, post);
      } else if idx + 1 < |parent.children| {
        sk' := JoinLeafAt(parent, idx, sk, t, pre, post);
      }
    }

    /** The parent sees its children as the tree has them. */
    lemma {:induction false} Beside(sk: Skel<V>, t: Tree<V>, i: nat)
      requires Rep(sk, t) && t.Inner? && i < |t.children|
      ensures |sk.node.children| == |t.children| && !sk.node.leaf
      ensures i > 0 ==> sk.node.children[i - 1].keys == t.children[i - 1].keys
      ensures i + 1 < |t.children| ==> sk.node.children[i + 1].keys == t.children[i + 1].keys
    {
      KidsRepLength(sk.kids, t.children);
      hide KidsRep, Roots;
      if i > 0 {
        KidAt(sk.kids, t.children, i - 1);
      }
      if i + 1 < |t.children| {
        KidAt(sk.kids, t.children, i + 1);
      }
    }

    method LeafFromLeft(parent: Node<V>, idx: nat, ghost sk: Skel<V>, ghost t: Tree<V>)
      returns (ghost sk': Skel<V>)
      requires sk.node == parent && Rep(sk, t) && Distinct(sk) && Nodes(sk) <= repr
      requires Formed(t, 1) && t.Inner? && 0 < idx < |t.children| && |t.children[idx - 1].keys| > 0
      modifies Nodes(sk)`keys, Nodes(sk)`values
      ensures sk'.node == parent && Distinct(sk') && Nodes(sk') <= Nodes(sk) && LeafNodes(sk') == LeafNodes(sk)
      ensures Rep(sk', WithPair(t, idx - 1, ShiftRight(t.children[idx - 1], t.keys[idx - 1], t.children[idx], 0)))
    {
      hide Rep, Distinct, Nodes, Formed, KidsRep, KidNodes, KidLeaves, Roots, WithPair, LeafNodes;
      FormedChildren(t, 1);
      PairReady(sk, t, 1, idx - 1);
      ghost var j, l, r := idx - 1, t.children[idx - 1], t.children[idx];
      ghost var lk, rk := sk.kids[j], sk.kids[idx];
      var left, child := parent.children[idx - 1], parent.children[idx];
      BorrowLeafFromLeft(left, child, l, t.keys[j], r);
      sk' := SetSeparator(parent, idx - 1, child.keys[0], sk, t, ShiftRight(l, t.keys[j], r, 0), lk, rk);
    }

    method LeafFromRight(parent: Node<V>, idx: nat, ghost sk: Skel<V>, ghost t: Tree<V>)
      returns (ghost sk': Skel<V>)
      requires sk.node == parent && Rep(sk, t) && Distinct(sk) && Nodes(sk) <= repr
      requires Formed(t, 1) && t.Inner? && idx + 1 < |t.children| && |t.children[idx + 1].keys| > 1
      modifies Nodes(sk)`keys, Nodes(sk)`values
      ensures sk'.node == parent && Distinct(sk') && Nodes(sk') <= Nodes(sk) && LeafNodes(sk') == LeafNodes(sk)
      ensures Rep(sk', WithPair(t, idx, ShiftLeft(t.children[idx], t.keys[idx], t.children[idx + 1], 0)))
    {
      hide Rep, Distinct, Nodes, Formed, KidsRep, KidNodes, KidLeaves, Roots, WithPair, LeafNodes;
      FormedChildren(t, 1);
      PairReady(sk, t, 1, idx);
      ghost var l, r := t.children[idx], t.children[idx + 1];
      ghost var lk, rk := sk.kids[idx], sk.kids[idx + 1];
      var child, right := parent.children[idx], parent.children[idx + 1];
      BorrowLeafFromRight(child, right, l, t.keys[idx], r);
      sk' := SetSeparator(parent, idx, right.keys[0], sk, t, ShiftLeft(l, t.keys[idx], r, 0), lk, rk);
    }

    method JoinLeafAt(parent: Node<V>, j: nat, ghost sk: Skel<V>, ghost t: Tree<V>,
                      ghost pre: seq<Node<V>>, ghost post: seq<Node<V>>)
      returns (ghost sk': Skel<V>)
      requires sk.node == parent && Rep(sk, t) && Distinct(sk) && Nodes(sk) <= repr
      requires Formed(t, 1) && t.Inner? && j + 1 < |t.children| && Chain(pre + LeafNodes(sk) + post, repr)
      modifies Nodes(sk), post`prev
      ensures sk'.node == parent && Distinct(sk') && Nodes(sk') <= Nodes(sk) && Chain(pre + LeafNodes(sk') + post, repr)
      ensures Rep(sk', WithPair(t, j, Merge(t.children[j], t.keys[j], t.children[j + 1], 0)))
      ensures j + 1 < |LeafNodes(sk)| && LeafNodes(sk') == Without(LeafNodes(sk), j + 1)
      ensures j + 1 < |sk.kids| && sk.kids[j + 1].node !in Nodes(sk') && Untouched(sk.kids[j + 1].node)
    {
      hide Rep, Distinct, Nodes, Formed, KidsRep, KidNodes, KidLeaves, Roots, WithPair, Merge, Chain, LeafNodes;
      FormedChildren(t, 1);
      PairReady(sk, t, 1, j);
      ghost var l, r := t.children[j], t.children[j + 1];
      ghost var lk, rk, A, B := sk.kids[j], sk.kids[j + 1], KidLeaves(sk.kids[..j]), KidLeaves(sk.kids[j + 2..]);
      LeafPairInChain(sk, j, pre, post);
      PairPlaces(sk, t, j);
      var left, right := parent.children[j], parent.children[j + 1];
      LeafSkel(left);
      LeafSkel(right);
      MergeLeaves(left, right, l, t.keys[j], r, pre + A, B + post);
      sk' := DropSeparator(parent, j, sk, t, Merge(l, t.keys[j], r, 0), lk);
    }
  
    lemma {:induction false} LeafCount(sk: Skel<V>, t: Tree<V>)
      requires Formed(t, 1) && Rep(sk, t) && t.Inner?
      ensures |LeafNodes(sk)| == |sk.kids| == |t.children|
    {
      KidsRepLength(sk.kids, t.children);
      LeafRow(sk.kids, t.children);
    }

    /** Where two neighbouring leaves stand among the leaves of their parent. */
    lemma {:induction false} PairPlaces(sk: Skel<V>, t: Tree<V>, j: nat)
      requires Formed(t, 1) && Rep(sk, t) && Distinct(sk) && t.Inner? && j + 1 < |t.children|
      ensures |sk.kids| == |t.children| == |LeafNodes(sk)|
      ensures LeafNodes(sk)[j] == sk.kids[j].node && LeafNodes(sk)[j + 1] == sk.kids[j + 1].node
      ensures LeafNodes(sk) == KidLeaves(sk.kids[..j]) + [sk.kids[j].node, sk.kids[j + 1].node] + KidLeaves(sk.kids[j + 2..])
      ensures |KidLeaves(sk.kids[..j])| == j
    {
      hide KidsRep, KidsDistinct, KidNodes, KidLeaves, Nodes, Distinct, Formed;
      FormedChildren(t, 1);
      AroundPair(sk, t, j);
      LeafSeat(sk, t, 1, j);
      LeafSeat(sk, t, 1, j + 1);
      LeafRow(sk.kids[..j], t.children[..j]);
      PairReady(sk, t, 1, j);
      PairApart(sk, j);
    }

    method RebalanceInternal(parent: Node<V>, idx: nat, ghost sk: Skel<V>, ghost t: Tree<V>, ghost h: nat)
      returns (ghost sk': Skel<V>)
      requires order >= 2 && sk.node == parent && Rep(sk, t) && Distinct(sk) && Nodes(sk) <= repr
      requires Formed(t, h) && h >= 2 && t.Inner? && idx < |t.children|
      modifies Nodes(sk)`keys, Nodes(sk)`children
      ensures sk'.node == parent && Rep(sk', Rebalance(t, h, idx, order / 2))
      ensures Distinct(sk') && Nodes(sk') <= Nodes(sk) && LeafNodes(sk') == LeafNodes(sk)
    {
      hide KidsRep, KidsDistinct, KidNodes, KidLeaves, Roots, LeafNodes, WithPair, ShiftLeft, ShiftRight, Merge, Rep, Formed;
      FormedChildren(t, h);
      Beside(sk, t, idx);
      sk' := sk;
      if idx > 0 && |parent.children[idx - 1].keys| > order / 2 {
        sk' := ChildFromLeft(parent, idx, sk, t, h);
      } else if idx + 1 < |parent.children| && |parent.children[idx + 1].keys| > order / 2 {
        sk' := ChildFromRight(parent, idx, sk, t, h);
      } else if idx > 0 {
        sk' := JoinInnerAt(parent, idx - 1, sk, t, h);
      } else if idx + 1 < |parent.children| {
        sk' := JoinInnerAt(parent, idx, sk, t, h);
      }
    }

    lemma {:induction false} FormedChildren(t: Tree<V>, h: nat)
      requires Formed(t, h) && t.Inner?
      ensures h > 0 && |t.children| == |t.keys| + 1
      ensures forall i :: 0 <= i < |t.children| ==> Formed(t.children[i], h - 1) && (t.children[i].Leaf? <==> h == 1)
    {
    }

    /** What work on two neighbouring children can count on. */
    lemma {:induction false} PairReady(sk: Skel<V>, t: Tree<V>, h: nat, j: nat)
      requires Formed(t, h) && Rep(sk, t) && Distinct(sk) && t.Inner? && j + 1 < |t.children|
      ensures |sk.kids| == |t.children| == |t.keys| + 1 == |sk.node.children|
      ensures !sk.node.leaf && sk.node.keys == t.keys && sk.node.children == Roots(sk.kids) && sk.node in Nodes(sk)
      ensures var l, r := sk.kids[j], sk.kids[j + 1];
              && Rep(l, t.children[j]) && Rep(r, t.children[j + 1]) && Distinct(l) && Distinct(r) && Nodes(l) !! Nodes(r)
              && sk.node.children[j] == l.node && sk.node.children[j + 1] == r.node && l.node != r.node
              && l.node in Nodes(l) && r.node in Nodes(r) && Nodes(l) + Nodes(r) <= Nodes(sk) && sk.node !in Nodes(l) + Nodes(r)
              && (h == 1 ==> l == Skel(l.node, []) && r == Skel(r.node, []))
      ensures var a, l, r, b := sk.kids[..j], sk.kids[j], sk.kids[j + 1], sk.kids[j + 2..];
              && KidsRep(a, t.children[..j]) && KidsRep(b, t.children[j + 2..])
              && KidNodes(a) + KidNodes(b) !! Nodes(l) + Nodes(r) && KidNodes(a) + KidNodes(b) <= Nodes(sk)
              && sk.node !in KidNodes(a) + KidNodes(b) && forall x :: x in KidLeaves(b) ==> x in KidNodes(b)
    {
      AroundPair(sk, t, j);
      KidAt(sk.kids, t.children, j);
      KidAt(sk.kids, t.children, j + 1);
      hide KidsRep, KidsDistinct, KidNodes, KidLeaves, Roots;
      PairApart(sk, j);
      LeavesAreNodes(sk.kids[j + 2..]);
    }

    method ChildFromLeft(parent: Node<V>, idx: nat, ghost sk: Skel<V>, ghost t: Tree<V>, ghost h: nat)
      returns (ghost sk': Skel<V>)
      requires sk.node == parent && Rep(sk, t) && Distinct(sk) && Nodes(sk) <= repr
      requires Formed(t, h) && h >= 2 && t.Inner? && 0 < idx < |t.children| && |t.children[idx - 1].keys| > 0
      modifies Nodes(sk)`keys, Nodes(sk)`children
      ensures sk'.node == parent && Distinct(sk') && Nodes(sk') <= Nodes(sk) && LeafNodes(sk') == LeafNodes(sk)
      ensures Rep(sk', WithPair(t, idx - 1, ShiftRight(t.children[idx - 1], t.keys[idx - 1], t.children[idx], h - 1)))
    {
      hide Rep, Distinct, Nodes, Formed, KidsRep, KidNodes, KidLeaves, Roots, WithPair, LeafNodes;
      FormedChildren(t, h);
      ghost var l, r := t.children[idx - 1], t.children[idx];
      PairReady(sk, t, h, idx - 1);
      var left, child := parent.children[idx - 1], parent.children[idx];
      ghost var s := parent.keys[idx - 1];
      var sep, lk, rk :=
        BorrowChildFromLeft(left, child, parent.keys[idx - 1], sk.kids[idx - 1], sk.kids[idx], l, r, h - 1);
      sk' := SetSeparator(parent, idx - 1, sep, sk, t, ShiftRight(l, s, r, h - 1), lk, rk);
    }

    method ChildFromRight(parent: Node<V>, idx: nat, ghost sk: Skel<V>, ghost t: Tree<V>, ghost h: nat)
      returns (ghost sk': Skel<V>)
      requires sk.node == parent && Rep(sk, t) && Distinct(sk) && Nodes(sk) <= repr
      requires Formed(t, h) && h >= 2 && t.Inner? && idx + 1 < |t.children| && |t.children[idx + 1].keys| > 1
      modifies Nodes(sk)`keys, Nodes(sk)`children
      ensures sk'.node == parent && Distinct(sk') && Nodes(sk') <= Nodes(sk) && LeafNodes(sk') == LeafNodes(sk)
      ensures Rep(sk', WithPair(t, idx, ShiftLeft(t.children[idx], t.keys[idx], t.children[idx + 1], h - 1)))
    {
      hide Rep, Distinct, Nodes, Formed, KidsRep, KidNodes, KidLeaves, Roots, WithPair, LeafNodes;
      FormedChildren(t, h);
      ghost var l, r := t.children[idx], t.children[idx + 1];
      PairReady(sk, t, h, idx);
      var child, right := parent.children[idx], parent.children[idx + 1];
      ghost var s := parent.keys[idx];
      var sep, lk, rk :=
        BorrowChildFromRight(child, right, parent.keys[idx], sk.kids[idx], sk.kids[idx + 1], l, r, h - 1);
      sk' := SetSeparator(parent, idx, sep, sk, t, ShiftLeft(l, s, r, h - 1), lk, rk);
    }

    method JoinInnerAt(parent: Node<V>, j: nat, ghost sk: Skel<V>, ghost t: Tree<V>, ghost h: nat)
      returns (ghost sk': Skel<V>)
      requires sk.node == parent && Rep(sk, t) && Distinct(sk) && Nodes(sk) <= repr
      requires Formed(t, h) && h >= 2 && t.Inner? && j + 1 < |t.children|
      modifies Nodes(sk)`keys, Nodes(sk)`children
      ensures sk'.node == parent && Distinct(sk') && Nodes(sk') <= Nodes(sk) && LeafNodes(sk') == LeafNodes(sk)
      ensures Rep(sk', WithPair(t, j, Merge(t.children[j], t.keys[j], t.children[j + 1], h - 1)))
    {
      hide Rep, Distinct, Nodes, Formed, KidsRep, KidNodes, KidLeaves, Roots, WithPair, LeafNodes;
      FormedChildren(t, h);
      PairReady(sk, t, h, j);
      PairApart(sk, j);
      ghost var l, r := t.children[j], t.children[j + 1];
      var left, right := parent.children[j], parent.children[j + 1];
      ghost var s := parent.keys[j];
      ghost var k := MergeInners(left, right, parent.keys[j], sk.kids[j], sk.kids[j + 1], l, r, h - 1);
      sk' := DropSeparator(parent, j, sk, t, Merge(l, s, r, h - 1), k);
    }
  
    // ---- deletion

    /** Leaf n of the subtree has been repaired: the leaf given up, if any, is no longer one of its leaves. */
    static ghost predicate Drops(sk: Skel<V>, sk': Skel<V>, n: nat, fix: Repair) {
      var c := LeafNodes(sk);
      && n < |c| && c[n] in Nodes(sk) && (fix == OfRight ==> n + 1 < |c|)
      && LeafNodes(sk') == Shorter(c, n, fix) && (fix == IntoLeft ==> c[n] !in Nodes(sk'))
    }

    /** A leaf that is given up, or has no leaf beside it, points to where it did. */
    twostate predicate Orphaned(sk: Skel<V>, n: nat, key: int, fix: Repair)
      requires Nodes(sk) <= old(repr) && n < |LeafNodes(sk)| && LeafNodes(sk)[n] in Nodes(sk)
      reads LeafNodes(sk)[n]
    {
      sk.kids == [] || fix == IntoLeft ==> LeftBehind(LeafNodes(sk)[n], key)
    }

    method DeleteFrom(node: Node<V>, key: int, ghost sk: Skel<V>, ghost t: Tree<V>, ghost h: nat, ghost atRoot: bool,
                      ghost pre: seq<Node<V>>, ghost post: seq<Node<V>>)
      returns (deleted: bool, ghost sk': Skel<V>)
      requires order >= 2 && Formed(t, h) && Sorted(t) && sk.node == node && Rep(sk, t)
      requires Distinct(sk) && Nodes(sk) <= repr && Chain(pre + LeafNodes(sk) + post, repr)
      requires if atRoot then root == node else root !in Nodes(sk)
      modifies Nodes(sk), post`prev
      ensures deleted == Model.DeleteFrom(t, h, key, atRoot, order / 2).Some?
      ensures Rep(sk', if deleted then Model.DeleteFrom(t, h, key, atRoot, order / 2).value else t)
      ensures sk'.node == node && Distinct(sk') && Nodes(sk') <= Nodes(sk) && Chain(pre + LeafNodes(sk') + post, repr)
      ensures var n, fix := Place(t, h, key), Fix(t, h, key, atRoot, order / 2);
              if deleted then Drops(sk, sk', n, fix) && Orphaned(sk, n, key, fix) else sk' == sk
      decreases h, 2
    {
      hide KidsRep, KidsDistinct, KidNodes, KidLeaves, Chain, LeafNodes, Nodes;
      if node.leaf {
        sk' := sk;
        var idx := Bisect(node.keys, key);
        deleted := idx < |node.keys| && node.keys[idx] == key;
        LeafSkel(node);
        if deleted {
          node.keys, node.values := Without(node.keys, idx), Without(node.values, idx);
        }
      } else {
        deleted, sk' := DeleteFromInner(node, key, sk, t, h, atRoot, pre, post);
      }
    }

    lemma {:induction false} NodeIsIn(sk: Skel<V>)
      ensures sk.node in Nodes(sk)
    {
    }

    method DeleteFromInner(node: Node<V>, key: int, ghost sk: Skel<V>, ghost t: Tree<V>, ghost h: nat, ghost atRoot: bool,
                           ghost pre: seq<Node<V>>, ghost post: seq<Node<V>>)
      returns (deleted: bool, ghost sk': Skel<V>)
      requires order >= 2 && Formed(t, h) && Sorted(t) && sk.node == node && Rep(sk, t) && t.Inner?
      requires Distinct(sk) && Nodes(sk) <= repr && Chain(pre + LeafNodes(sk) + post, repr)
      requires if atRoot then root == node else root !in Nodes(sk)
      modifies Nodes(sk), post`prev
      ensures deleted == Model.DeleteFrom(t, h, key, atRoot, order / 2).Some?
      ensures Rep(sk', if deleted then Model.DeleteFrom(t, h, key, atRoot, order / 2).value else t)
      ensures sk'.node == node && Distinct(sk') && Nodes(sk') <= Nodes(sk) && Chain(pre + LeafNodes(sk') + post, repr)
      ensures var n, fix := Place(t, h, key), Fix(t, h, key, atRoot, order / 2);
              if deleted then Drops(sk, sk', n, fix) && Orphaned(sk, n, key, fix) else sk' == sk
      decreases h, 1
    {
      hide Rep, Distinct, Nodes, Formed, Sorted, Model.DeleteFrom, Model.AfterDelete, Underfull, Chain, LeafNodes, Rebalance;
      hide Place, Fix, RepairAt, AllLeafKeys, Shorter, Drops, LowerBound, Without;
      InnerStands(sk, t, h);
      DeleteStep(t, h, key, atRoot, order / 2);
      FixStep(t, h, key, atRoot, order / 2);
      NodeIsIn(sk);
      var i := BisectRight(node.keys, key);
      ChildReady(sk, t, i, h);
      LeafSeat(sk, t, h, i);
      var child := node.children[i];
      ghost var r := Model.DeleteFrom(t.children[i], h - 1, key, false, order / 2);
      ghost var n := |AllLeafKeys(t.children[..i])| + Place(t.children[i], h - 1, key);
      ghost var k;
      deleted, k, sk' := DeleteInChild(node, i, key, sk, t, h, atRoot, pre, post);
      if deleted {
        var minRequired := if node == root then 1 else order / 2;
        ghost var u := Inner(t.keys, t.children[i := r.value]);
        UnderfullIs(k, r.value, minRequired);
        DropsMeans(sk, sk', n, Fix(t.children[i], h - 1, key, false, order / 2));
        if child.leaf && |child.keys| < minRequired {
          ghost var mid := sk';
          KidNode(mid, u, i);
          sk' := RebalanceLeaf(node, i, mid, u, pre, post);
          SameRepair(t.children, i, r.value, order / 2);
          DropsHere(sk, mid, sk', i, RepairAt(t.children, i, order / 2));
        } else if !child.leaf && |child.children| < minRequired {
          ghost var mid := sk';
          sk' := RebalanceInternal(node, i, mid, u, h);
          DropsSame(sk, mid, sk', n, Fix(t.children[i], h - 1, key, false, order / 2));
        }
      }
    }

    lemma {:induction false} LeafSeat(sk: Skel<V>, t: Tree<V>, h: nat, i: nat)
      requires Formed(t, h) && Rep(sk, t) && t.Inner? && i < |t.children|
      ensures |sk.kids| == |t.children|
      ensures h == 1 ==> |LeafNodes(sk)| == |t.children| && LeafNodes(sk)[i] == sk.kids[i].node
      ensures h == 1 ==> LeafNodes(sk.kids[i]) == [sk.kids[i].node] && |AllLeafKeys(t.children[..i])| == i
    {
      KidsRepLength(sk.kids, t.children);
      KidAt(sk.kids, t.children, i);
      FormedChildren(t, h);
      if h == 1 {
        LeafRow(sk.kids, t.children);
        KeysOfFlat(t.children[..i]);
      }
    }

    lemma {:induction false} KidNode(sk: Skel<V>, t: Tree<V>, i: nat)
      requires Rep(sk, t) && t.Inner? && i < |t.children|
      ensures i < |sk.kids| && i < |sk.node.children| && sk.node.children[i] == sk.kids[i].node
    {
      KidsRepLength(sk.kids, t.children);
      KidAt(sk.kids, t.children, i);
    }

    static lemma {:induction false} SameRepair(children: seq<Tree<V>>, i: nat, c: Tree<V>, minKeys: nat)
      requires i < |children|
      ensures RepairAt(children[i := c], i, minKeys) == RepairAt(children, i, minKeys)
      ensures RepairAt(children, i, minKeys) == OfRight ==> i + 1 < |children|
    {
    }

    static lemma {:induction false} DropsMeans(sk: Skel<V>, sk': Skel<V>, n: nat, fix: Repair)
      requires Drops(sk, sk', n, fix)
      ensures n < |LeafNodes(sk)| && LeafNodes(sk)[n] in Nodes(sk) && (fix == IntoLeft ==> LeafNodes(sk)[n] !in Nodes(sk'))
    {
    }

    static lemma {:induction false} DropsSame(sk: Skel<V>, mid: Skel<V>, sk': Skel<V>, n: nat, fix: Repair)
      requires Drops(sk, mid, n, fix) && LeafNodes(sk') == LeafNodes(mid) && Nodes(sk') <= Nodes(mid)
      ensures Drops(sk, sk', n, fix)
    {
    }

    static lemma {:induction false} DropsHere(sk: Skel<V>, mid: Skel<V>, sk': Skel<V>, n: nat, fix: Repair)
      requires Drops(sk, mid, n, Nothing) && LeafNodes(sk') == Shorter(LeafNodes(mid), n, fix) && (fix == OfRight ==> n + 1 < |LeafNodes(sk)|)
      requires fix == IntoLeft ==> LeafNodes(sk)[n] !in Nodes(sk')
      ensures Drops(sk, sk', n, fix)
    {
    }

    /** The recursive step alone: child i has become k, and the node holds it. */
    lemma {:induction false} InnerStands(sk: Skel<V>, t: Tree<V>, h: nat)
      requires Formed(t, h) && Sorted(t) && Rep(sk, t) && t.Inner?
      ensures h > 0 && sk.node.keys == t.keys && StrictlySorted(t.keys) && |t.children| == |t.keys| + 1
    {
    }

    lemma {:induction false} UnderfullIs(k: Skel<V>, c: Tree<V>, required: nat)
      requires Rep(k, c)
      ensures k.node.leaf <==> c.Leaf?
      ensures Underfull(c, required) <==> (if k.node.leaf then |k.node.keys| else |k.node.children|) < required
    {
      if c.Inner? {
        KidsRepLength(k.kids, c.children);
      }
    }

    lemma {:induction false} PlaceInRange(t: Tree<V>, h: nat, key: int)
      requires Formed(t, h) && t.Inner?
      ensures UpperBound(t.keys, key) < |t.children|
    {
    }

    /** What a walk down to child i can count on. */
    lemma {:induction false} ChildReady(sk: Skel<V>, t: Tree<V>, i: nat, h: nat)
      requires Formed(t, h) && Sorted(t) && Rep(sk, t) && Distinct(sk) && t.Inner? && i < |t.children|
      ensures h > 0 && |sk.kids| == |t.children| == |sk.node.children|
      ensures !sk.node.leaf && sk.node.keys == t.keys && sk.node.children == Roots(sk.kids)
      ensures var k, c := sk.kids[i], t.children[i];
              && Formed(c, h - 1) && Sorted(c) && Rep(k, c) && Distinct(k) && Nodes(k) <= Nodes(sk)
              && sk.node in Nodes(sk) && sk.node !in Nodes(k) && sk.node.children[i] == k.node && k.node in Nodes(k)
      ensures var a, k, b := sk.kids[..i], sk.kids[i], sk.kids[i + 1..];
              && KidsRep(a, t.children[..i]) && KidsRep(b, t.children[i + 1..])
              && KidNodes(a) !! Nodes(k) && KidNodes(b) !! Nodes(k) && KidNodes(a) + KidNodes(b) <= Nodes(sk)
              && forall x :: x in KidLeaves(b) ==> x in KidNodes(b)
    {
      Around(sk, t, i);
      KidAt(sk.kids, t.children, i);
      var a, k, b := sk.kids[..i], sk.kids[i], sk.kids[i + 1..];
      hide KidsRep, KidsDistinct, KidNodes, KidLeaves, Roots;
      Append3(a, [k], b);
      KidsOne(k);
      LeavesAreNodes(b);
    }

    lemma {:induction false} LeafKid(sk: Skel<V>, t: Tree<V>, h: nat, i: nat, key: int)
      requires Formed(t, h) && t.Inner? && i < |t.children| == |sk.kids| && Rep(sk.kids[i], t.children[i])
      ensures h > 0 && Formed(t.children[i], h - 1)
      ensures h == 1 ==> var k := sk.kids[i]; k.kids == [] && LeafNodes(k) == [k.node] && Place(t.children[i], h - 1, key) == 0
    {
    }

    /** How many leaves stand before those of child i. */
    lemma {:induction false} LeafPlace(sk: Skel<V>, t: Tree<V>, h: nat, i: nat)
      requires Formed(t, h) && Rep(sk, t) && t.Inner? && i < |t.children| == |sk.kids|
      ensures |KidLeaves(sk.kids[..i])| == |AllLeafKeys(t.children[..i])|
    {
      Around(sk, t, i);
      KidLeavesHeld(sk.kids[..i], t.children[..i], h - 1);
      KeysOfAllLeaves(t.children[..i], h - 1);
    }

    lemma {:induction false} KidLeavesOf(sk: Skel<V>, i: nat, k: Skel<V>)
      requires Distinct(sk) && i < |sk.kids| && Nodes(k) <= Nodes(sk.kids[i])
      ensures LeafNodes(sk) == KidLeaves(sk.kids[..i]) + LeafNodes(sk.kids[i]) + KidLeaves(sk.kids[i + 1..])
      ensures LeafNodes(Skel(sk.node, sk.kids[..i] + [k] + sk.kids[i + 1..])) == KidLeaves(sk.kids[..i]) + LeafNodes(k) + KidLeaves(sk.kids[i + 1..])
      ensures Nodes(Skel(sk.node, sk.kids[..i] + [k] + sk.kids[i + 1..])) !! Nodes(sk.kids[i]) - Nodes(k)
      ensures Nodes(sk.kids[i]) <= Nodes(sk)
    {
      var a, b := sk.kids[..i], sk.kids[i + 1..];
      assert sk.kids == a + [sk.kids[i]] + b;
      hide KidNodes, KidLeaves, KidsDistinct, Roots;
      Append3(a, [sk.kids[i]], b);
      Append3(a, [k], b);
      KidsOne(sk.kids[i]);
      KidsOne(k);
    }

    lemma {:induction false} DropsBelow(sk: Skel<V>, i: nat, k: Skel<V>, n: nat, fix: Repair)
      requires i < |sk.kids| && Nodes(sk.kids[i]) <= Nodes(sk) && Drops(sk.kids[i], k, n, fix)
      requires LeafNodes(sk) == KidLeaves(sk.kids[..i]) + LeafNodes(sk.kids[i]) + KidLeaves(sk.kids[i + 1..])
      requires var sk' := Skel(sk.node, sk.kids[..i] + [k] + sk.kids[i + 1..]);
               && LeafNodes(sk') == KidLeaves(sk.kids[..i]) + LeafNodes(k) + KidLeaves(sk.kids[i + 1..])
               && Nodes(sk') !! Nodes(sk.kids[i]) - Nodes(k)
      ensures var m := |KidLeaves(sk.kids[..i])| + n;
              && Drops(sk, Skel(sk.node, sk.kids[..i] + [k] + sk.kids[i + 1..]), m, fix)
              && LeafNodes(sk)[m] == LeafNodes(sk.kids[i])[n]
    {
      hide LeafNodes, KidLeaves, Nodes, Shorter;
      var a, c, b := KidLeaves(sk.kids[..i]), LeafNodes(sk.kids[i]), KidLeaves(sk.kids[i + 1..]);
      ShorterAround(a, c, b, n, fix);
      InMiddle(a, c, b, n);
    }

    method DeleteInChild(node: Node<V>, i: nat, key: int, ghost sk: Skel<V>, ghost t: Tree<V>, ghost h: nat,
                         ghost atRoot: bool, ghost pre: seq<Node<V>>, ghost post: seq<Node<V>>)
      returns (deleted: bool, ghost k: Skel<V>, ghost sk': Skel<V>)
      requires order >= 2 && Formed(t, h) && Sorted(t) && sk.node == node && Rep(sk, t) && t.Inner?
      requires i == UpperBound(t.keys, key)
      requires Distinct(sk) && Nodes(sk) <= repr && Chain(pre + LeafNodes(sk) + post, repr)
      requires if atRoot then root == node else root !in Nodes(sk)
      modifies Nodes(sk), post`prev
      ensures node.children == old(node.children) && i < |node.children|
      ensures var r := Model.DeleteFrom(t.children[i], h - 1, key, false, order / 2);
              && deleted == r.Some? && node.children[i] == k.node
              && Rep(k, if deleted then r.value else t.children[i])
              && Rep(sk', if deleted then Inner(t.keys, t.children[i := r.value]) else t)
      ensures sk'.node == node && Distinct(sk') && Nodes(sk') <= Nodes(sk) && Chain(pre + LeafNodes(sk') + post, repr)
      ensures var n, fix := |AllLeafKeys(t.children[..i])| + Place(t.children[i], h - 1, key), Fix(t.children[i], h - 1, key, false, order / 2);
              if deleted then Drops(sk, sk', n, fix) && Orphaned(sk, n, key, fix) else sk' == sk
      ensures i < |sk.kids| && (deleted && h == 1 ==> LeftBehind(sk.kids[i].node, key))
      decreases h, 0
    {
      hide Rep, Distinct, Nodes, Formed, Sorted, Model.DeleteFrom, KidsRep, KidsDistinct, KidNodes, KidLeaves, Roots, Chain,
        LeafNodes;
      PlaceInRange(t, h, key);
      ChildReady(sk, t, i, h);
      ghost var a, k0, b := sk.kids[..i], sk.kids[i], sk.kids[i + 1..];
      KidPutApart(sk, i, k0, pre, post);
      LeafPlace(sk, t, h, i);
      LeafKid(sk, t, h, i, key);
      deleted, k := DeleteFrom(node.children[i], key, k0, t.children[i], h - 1, false, pre + KidLeaves(a), KidLeaves(b) + post);
      ghost var c := if deleted then Model.DeleteFrom(t.children[i], h - 1, key, false, order / 2).value else t.children[i];
      KidPut(sk, t, i, k, c);
      KidPutApart(sk, i, k, pre, post);
      sk' := Skel(node, a + [k] + b);
      KidLeavesOf(sk, i, k);
      ghost var m, fix := Place(t.children[i], h - 1, key), Fix(t.children[i], h - 1, key, false, order / 2);
      if deleted {
        DropsBelow(sk, i, k, m, fix);
      }
      assert t.children[i := t.children[i]] == t.children;
    }
  }
}
