/** The nodes of the price index as they lie in memory, and the tree of values they hold. */
module BPlusNodes {
  import opened SortedEntries
  import opened BPlusModel
  import opened BPlusRuns
  import opened BPlusShape

  class Node<V> {
    const leaf: bool
    var keys: seq<int>
    var values: seq<V>
    var children: seq<Node<V>>
    var prev: Node?<V>
    var next: Node?<V>

    constructor Leaf(keys: seq<int>, values: seq<V>, prev: Node?<V>, next: Node?<V>)
      ensures leaf && this.keys == keys && this.values == values && this.prev == prev && this.next == next
    {
      leaf, this.keys, this.values, this.children, this.prev, this.next := true, keys, values, [], prev, next;
    }

    constructor Inner(keys: seq<int>, children: seq<Node<V>>)
      ensures !leaf && this.keys == keys && this.children == children
    {
      leaf, this.keys, this.children, this.values, this.prev, this.next := false, keys, children, [], null, null;
    }
  }

  // ---- which nodes make up a tree

  /** The nodes of a tree by position. */
  datatype Skel<V> = Skel(node: Node<V>, kids: seq<Skel<V>>)

  ghost function Nodes<V>(sk: Skel<V>): set<Node<V>> {
    {sk.node} + KidNodes(sk.kids)
  }

  ghost function KidNodes<V>(kids: seq<Skel<V>>): set<Node<V>> {
    if kids == [] then {} else Nodes(kids[0]) + KidNodes(kids[1..])
  }

  /** No node occurs twice. */
  ghost predicate Distinct<V>(sk: Skel<V>) {
    sk.node !in KidNodes(sk.kids) && KidsDistinct(sk.kids)
  }

  ghost predicate KidsDistinct<V>(kids: seq<Skel<V>>) {
    kids == [] || (Distinct(kids[0]) && Nodes(kids[0]) !! KidNodes(kids[1..]) && KidsDistinct(kids[1..]))
  }

  ghost function Roots<V>(kids: seq<Skel<V>>): (ns: seq<Node<V>>)
    ensures |ns| == |kids|
  {
    if kids == [] then [] else [kids[0].node] + Roots(kids[1..])
  }

  ghost function LeafNodes<V>(sk: Skel<V>): seq<Node<V>> {
    if sk.kids == [] then [sk.node] else KidLeaves(sk.kids)
  }

  ghost function KidLeaves<V>(kids: seq<Skel<V>>): seq<Node<V>> {
    if kids == [] then [] else LeafNodes(kids[0]) + KidLeaves(kids[1..])
  }

  /** The nodes hold the tree t. */
  ghost predicate Rep<V>(sk: Skel<V>, t: Tree<V>)
    reads Nodes(sk)`keys, Nodes(sk)`values, Nodes(sk)`children
  {
    && sk.node.keys == t.keys
    && sk.node.leaf == t.Leaf?
    && match t
       case Leaf(_, values) => sk.node.values == values && sk.kids == []
       case Inner(_, children) => sk.node.children == Roots(sk.kids) && sk.kids != [] && KidsRep(sk.kids, children)
  }

  ghost predicate KidsRep<V>(kids: seq<Skel<V>>, ts: seq<Tree<V>>)
    reads KidNodes(kids)`keys, KidNodes(kids)`values, KidNodes(kids)`children
  {
    |kids| == |ts| && (kids == [] || (Rep(kids[0], ts[0]) && KidsRep(kids[1..], ts[1..])))
  }

  lemma {:induction false} KidsAppend<V>(a: seq<Skel<V>>, b: seq<Skel<V>>)
    ensures KidNodes(a + b) == KidNodes(a) + KidNodes(b)
    ensures Roots(a + b) == Roots(a) + Roots(b)
    ensures KidLeaves(a + b) == KidLeaves(a) + KidLeaves(b)
    ensures KidsDistinct(a + b) <==> KidsDistinct(a) && KidsDistinct(b) && KidNodes(a) !! KidNodes(b)
  {
    var ab := a + b;
    if a == [] {
      assert ab == b;
    } else {
      assert ab[0] == a[0] && ab[1..] == a[1..] + b;
      KidsAppend(a[1..], b);
      Assoc(LeafNodes(a[0]), KidLeaves(a[1..]), KidLeaves(b));
      Assoc([a[0].node], Roots(a[1..]), Roots(b));
    }
  }

  lemma {:induction false} KidsRepAppend<V>(a: seq<Skel<V>>, b: seq<Skel<V>>, ta: seq<Tree<V>>, tb: seq<Tree<V>>)
    requires |a| == |ta| && |b| == |tb|
    ensures KidsRep(a + b, ta + tb) <==> KidsRep(a, ta) && KidsRep(b, tb)
  {
    var ab, tab := a + b, ta + tb;
    if a == [] {
      assert ab == b && tab == tb;
    } else {
      assert ab[0] == a[0] && ab[1..] == a[1..] + b && tab[0] == ta[0] && tab[1..] == ta[1..] + tb;
      KidsRepAppend(a[1..], b, ta[1..], tb);
    }
  }

  lemma {:induction false} LeafSkel<V>(n: Node<V>)
    ensures Nodes(Skel(n, [])) == {n} && LeafNodes(Skel(n, [])) == [n] && Distinct(Skel(n, []))
  {
  }

  lemma {:induction false} KidsOne<V>(k: Skel<V>)
    ensures KidNodes([k]) == Nodes(k) && KidLeaves([k]) == LeafNodes(k) && Roots([k]) == [k.node]
    ensures KidsDistinct([k]) <==> Distinct(k)
  {
    assert [k][1..] == [];
  }

  lemma {:induction false} KidsTwo<V>(k: Skel<V>, l: Skel<V>)
    ensures KidNodes([k, l]) == Nodes(k) + Nodes(l) && KidLeaves([k, l]) == LeafNodes(k) + LeafNodes(l)
    ensures Roots([k, l]) == [k.node, l.node]
    ensures KidsDistinct([k, l]) <==> Distinct(k) && Distinct(l) && Nodes(k) !! Nodes(l)
  {
    assert [k, l][1..] == [l];
    KidsOne(l);
  }

  lemma {:induction false} OneLeaf<V>(n: Node<V>, t: Tree<V>)
    requires t.Leaf?
    ensures var ks := [Skel(n, [])];
            KidNodes(ks) == {n} && KidLeaves(ks) == [n] && KidsDistinct(ks) && (KidsRep(ks, [t]) <==> Rep(ks[0], t))
  {
    LeafSkel(n);
    KidsOne(Skel(n, []));
    KidsRepOne(Skel(n, []), t);
  }

  lemma {:induction false} TwoLeaves<V>(n: Node<V>, o: Node<V>, t: Tree<V>, u: Tree<V>)
    requires t.Leaf? && u.Leaf? && n != o
    ensures var ks := [Skel(n, []), Skel(o, [])];
            && KidNodes(ks) == {n, o} && KidLeaves(ks) == [n, o] && KidsDistinct(ks)
            && (KidsRep(ks, [t, u]) <==> Rep(ks[0], t) && Rep(ks[1], u))
  {
    LeafSkel(n);
    LeafSkel(o);
    KidsTwo(Skel(n, []), Skel(o, []));
    KidsRepTwo(Skel(n, []), Skel(o, []), t, u);
  }

  lemma {:induction false} KidsRepOne<V>(k: Skel<V>, t: Tree<V>)
    ensures KidsRep([k], [t]) <==> Rep(k, t)
  {
    assert [k][1..] == [] && [t][1..] == [];
  }

  lemma {:induction false} KidsRepTwo<V>(k: Skel<V>, l: Skel<V>, t: Tree<V>, u: Tree<V>)
    ensures KidsRep([k, l], [t, u]) <==> Rep(k, t) && Rep(l, u)
  {
    assert [k, l][1..] == [l] && [t, u][1..] == [u];
    KidsRepOne(l, u);
  }

  lemma {:induction false} Append3<V>(a: seq<Skel<V>>, m: seq<Skel<V>>, b: seq<Skel<V>>)
    ensures KidNodes(a + m + b) == KidNodes(a) + KidNodes(m) + KidNodes(b)
    ensures Roots(a + m + b) == Roots(a) + Roots(m) + Roots(b)
    ensures KidLeaves(a + m + b) == KidLeaves(a) + KidLeaves(m) + KidLeaves(b)
    ensures KidsDistinct(a + m + b) <==>
              && KidsDistinct(a) && KidsDistinct(m) && KidsDistinct(b)
              && KidNodes(a) !! KidNodes(m) && KidNodes(a) !! KidNodes(b) && KidNodes(m) !! KidNodes(b)
  {
    hide KidNodes, KidLeaves, KidsDistinct, Roots;
    KidsAppend(a + m, b);
    KidsAppend(a, m);
  }

  lemma {:induction false} RepAppend3<V>(a: seq<Skel<V>>, m: seq<Skel<V>>, b: seq<Skel<V>>, ta: seq<Tree<V>>, tm: seq<Tree<V>>, tb: seq<Tree<V>>)
    requires |a| == |ta| && |m| == |tm| && |b| == |tb|
    ensures KidsRep(a + m + b, ta + tm + tb) <==> KidsRep(a, ta) && KidsRep(m, tm) && KidsRep(b, tb)
  {
    hide KidsRep;
    KidsRepAppend(a + m, b, ta + tm, tb);
    KidsRepAppend(a, m, ta, tm);
  }

  /** The children of a node around child i. */
  lemma {:induction false} Around<V>(sk: Skel<V>, t: Tree<V>, i: nat)
    requires Rep(sk, t) && t.Inner? && i < |t.children|
    ensures |sk.kids| == |t.children|
    ensures sk.kids == sk.kids[..i] + [sk.kids[i]] + sk.kids[i + 1..]
    ensures KidsRep(sk.kids[..i], t.children[..i]) && Rep(sk.kids[i], t.children[i])
    ensures KidsRep(sk.kids[i + 1..], t.children[i + 1..])
  {
    KidsRepLength(sk.kids, t.children);
    var a, k, b := sk.kids[..i], [sk.kids[i]], sk.kids[i + 1..];
    var ta, u, tb := t.children[..i], [t.children[i]], t.children[i + 1..];
    assert sk.kids == a + k + b && t.children == ta + u + tb;
    hide KidsRep;
    RepAppend3(a, k, b, ta, u, tb);
    KidsRepOne(sk.kids[i], t.children[i]);
  }

  lemma {:induction false} KidsRepLength<V>(kids: seq<Skel<V>>, ts: seq<Tree<V>>)
    requires KidsRep(kids, ts)
    ensures |kids| == |ts|
  {
  }

  lemma {:induction false} RegroupAround<V>(sk: Skel<V>, i: nat, pre: seq<Node<V>>, post: seq<Node<V>>)
    requires i < |sk.kids|
    ensures var a, k, b := sk.kids[..i], sk.kids[i], sk.kids[i + 1..];
            && LeafNodes(sk) == KidLeaves(a) + LeafNodes(k) + KidLeaves(b)
            && pre + LeafNodes(sk) + post == (pre + KidLeaves(a)) + LeafNodes(k) + (KidLeaves(b) + post)
  {
    var a, k, b := sk.kids[..i], sk.kids[i], sk.kids[i + 1..];
    assert sk.kids == a + [k] + b;
    hide KidLeaves;
    Append3(a, [k], b);
    KidsOne(k);
    Regroup(pre, KidLeaves(a), LeafNodes(k), KidLeaves(b), post);
  }

  lemma {:induction false} KidIn<V>(kids: seq<Skel<V>>, i: nat)
    requires i < |kids|
    ensures Nodes(kids[i]) <= KidNodes(kids)
  {
    if i > 0 {
      KidIn(kids[1..], i - 1);
    }
  }

  lemma {:induction false} KidAt<V>(kids: seq<Skel<V>>, ts: seq<Tree<V>>, i: nat)
    requires KidsRep(kids, ts) && i < |ts|
    ensures |kids| == |ts| && Rep(kids[i], ts[i]) && Roots(kids)[i] == kids[i].node
  {
    KidsRepLength(kids, ts);
    if i > 0 {
      KidAt(kids[1..], ts[1..], i - 1);
    }
  }

  /** Children that are leaves are their own leaves. */
  lemma {:induction false} LeafRow<V>(kids: seq<Skel<V>>, ts: seq<Tree<V>>)
    requires KidsRep(kids, ts) && forall i :: 0 <= i < |ts| ==> ts[i].Leaf?
    ensures KidLeaves(kids) == Roots(kids)
  {
    if kids != [] {
      LeafRow(kids[1..], ts[1..]);
    }
  }

  /** Every leaf is one of the nodes. */
  lemma {:induction false} LeavesAreNodes<V>(kids: seq<Skel<V>>)
    ensures forall x :: x in KidLeaves(kids) ==> x in KidNodes(kids)
  {
    if kids != [] {
      if kids[0].kids != [] {
        LeavesAreNodes(kids[0].kids);
      }
      LeavesAreNodes(kids[1..]);
      assert KidLeaves(kids) == LeafNodes(kids[0]) + KidLeaves(kids[1..]);
    }
  }

  ghost function At<V>(c: seq<Node<V>>, i: int): Node?<V> {
    if 0 <= i < |c| then c[i] else null
  }

  /** The nodes are linked in order, both ways, and end in null. */
  ghost predicate Linked<V>(c: seq<Node<V>>)
    reads c`prev, c`next
  {
    NoDup(c) && forall i :: 0 <= i < |c| ==> c[i].next == At(c, i + 1) && c[i].prev == At(c, i - 1)
  }

  /** The leaves, all among ns, form the linked list. */
  ghost predicate Chain<V>(c: seq<Node<V>>, ns: set<Node<V>>)
    reads ns`prev, ns`next
  {
    (forall x :: x in c ==> x in ns) && Linked(c)
  }

  lemma {:induction false} ChainGrows<V>(c: seq<Node<V>>, ns: set<Node<V>>, ns': set<Node<V>>)
    requires Chain(c, ns) && ns <= ns'
    ensures Chain(c, ns')
  {
  }

  /** d is c with x put in at position n. */
  ghost predicate HasNew<T>(d: seq<T>, c: seq<T>, n: nat, x: T) {
    && n <= |c| && |d| == |c| + 1 && d[n] == x
    && (forall i :: 0 <= i < n ==> d[i] == c[i])
    && (forall i :: n < i < |d| ==> d[i] == c[i - 1])
  }

  lemma {:induction false} NewNoDup<T>(d: seq<T>, c: seq<T>, n: nat, x: T)
    requires HasNew(d, c, n, x) && NoDup(c) && x !in c
    ensures NoDup(d) && forall y :: y in d ==> y == x || y in c
  {
    forall i, j | 0 <= i < j < |d| ensures d[i] != d[j] {
      assert i != n ==> d[i] == c[if i < n then i else i - 1];
      assert j != n ==> d[j] == c[if j < n then j else j - 1];
    }
  }

  lemma {:induction false} OldNoDup<T>(d: seq<T>, c: seq<T>, n: nat, x: T)
    requires HasNew(d, c, n, x) && NoDup(d)
    ensures NoDup(c) && forall y :: y in c ==> y in d
  {
    forall i | 0 <= i < |c| ensures c[i] in d {
      assert c[i] == d[if i < n then i else i + 1];
    }
    forall i, j | 0 <= i < j < |c| ensures c[i] != c[j] {
      assert c[i] == d[if i < n then i else i + 1] && c[j] == d[if j < n then j else j + 1];
    }
  }

  lemma {:induction false} NewBehind<T>(pre: seq<T>, x: T, y: T, post: seq<T>)
    ensures var c, d := pre + [x] + post, pre + [x, y] + post;
            && c[|pre|] == x && c[|pre| + 1..] == post && HasNew(d, c, |pre| + 1, y)
            && d[|pre|] == x && d[|pre| + 1] == y && d[|pre| + 2..] == post
            && (forall z :: z in d <==> z in c || z == y)
  {
  }

  /** What a split hands to the parent. */
  datatype Half<V> = Half(key: int, left: Node<V>, right: Node<V>)

  /** Separators strictly increasing in every node. */
  ghost predicate Sorted<V>(t: Tree<V>) {
    StrictlySorted(t.keys) && (t.Inner? ==> forall i :: 0 <= i < |t.children| ==> Sorted(t.children[i]))
  }

  ghost function Outs<V>(r: Insertion<V>): seq<Tree<V>> {
    match r
    case Fits(t) => [t]
    case Splits(l, _, r) => [l, r]
  }

  lemma {:induction false} OkIsSorted<V>(t: Tree<V>, h: nat, lo: int, hi: int, m: nat)
    requires Ok(t, h, lo, hi, m)
    ensures Sorted(t)
    decreases h
  {
    if t.Inner? {
      forall i | 0 <= i < |t.children| ensures Sorted(t.children[i]) {
        OkIsSorted(t.children[i], h - 1, LoAt(t.keys, i, lo), HiAt(t.keys, i, hi), m);
      }
    }
  }

  /** A split is reported to the parent as the model says, between the nodes of ks. */
  ghost predicate Reported<V>(split: Option<Half<V>>, node: Node<V>, ks: seq<Skel<V>>, r: Insertion<V>) {
    && |ks| == |Outs(r)| && ks[0].node == node
    && split == if r.Fits? then None else Some(Half(r.key, node, ks[1].node))
  }

  // ---- two neighbouring children

  ghost function PairTrees<V>(p: Pair<V>): seq<Tree<V>> {
    match p
    case Two(l, _, r) => [l, r]
    case One(c) => [c]
  }

  /** The children of a node around its children j and j + 1. */
  lemma {:induction false} AroundPair<V>(sk: Skel<V>, t: Tree<V>, j: nat)
    requires Rep(sk, t) && t.Inner? && j + 1 < |t.children|
    ensures |sk.kids| == |t.children|
    ensures sk.kids == sk.kids[..j] + [sk.kids[j], sk.kids[j + 1]] + sk.kids[j + 2..]
    ensures KidsRep(sk.kids[..j], t.children[..j]) && KidsRep(sk.kids[j + 2..], t.children[j + 2..])
    ensures Rep(sk.kids[j], t.children[j]) && Rep(sk.kids[j + 1], t.children[j + 1])
  {
    KidsRepLength(sk.kids, t.children);
    var a, k, b := sk.kids[..j], [sk.kids[j], sk.kids[j + 1]], sk.kids[j + 2..];
    var ta, u, tb := t.children[..j], [t.children[j], t.children[j + 1]], t.children[j + 2..];
    assert sk.kids == a + k + b && t.children == ta + u + tb;
    hide KidsRep;
    RepAppend3(a, k, b, ta, u, tb);
    KidsRepTwo(sk.kids[j], sk.kids[j + 1], t.children[j], t.children[j + 1]);
  }

  /** A pair of children with no node in common, apart from the rest of the tree. */
  lemma {:induction false} PairApart<V>(sk: Skel<V>, j: nat)
    requires Distinct(sk) && j + 1 < |sk.kids|
    ensures var a, l, r, b := sk.kids[..j], sk.kids[j], sk.kids[j + 1], sk.kids[j + 2..];
            && Distinct(l) && Distinct(r) && Nodes(l) !! Nodes(r) && KidsDistinct(a) && KidsDistinct(b)
            && KidNodes(a) !! Nodes(l) + Nodes(r) && KidNodes(a) !! KidNodes(b) && Nodes(l) + Nodes(r) !! KidNodes(b)
            && Nodes(sk) == {sk.node} + KidNodes(a) + (Nodes(l) + Nodes(r)) + KidNodes(b)
            && sk.node !in KidNodes(a) + (Nodes(l) + Nodes(r)) + KidNodes(b)
            && LeafNodes(sk) == KidLeaves(a) + (LeafNodes(l) + LeafNodes(r)) + KidLeaves(b)
            && Roots(sk.kids) == Roots(a) + [l.node, r.node] + Roots(b)
  {
    var a, l, r, b := sk.kids[..j], sk.kids[j], sk.kids[j + 1], sk.kids[j + 2..];
    assert sk.kids == a + [l, r] + b;
    hide KidNodes, KidLeaves, KidsDistinct, Roots;
    Append3(a, [l, r], b);
    KidsTwo(l, r);
  }

  lemma {:induction false} WithPairChildren<V>(t: Tree<V>, j: nat, p: Pair<V>)
    requires t.Inner? && |t.children| == |t.keys| + 1 && j < |t.keys|
    ensures WithPair(t, j, p).children == t.children[..j] + PairTrees(p) + t.children[j + 2..]
  {
  }

  /** The parent after its children j and j + 1 were replaced by ks, which hold the pair p. */
  lemma {:induction false} PairPut<V>(parent: Node<V>, a: seq<Skel<V>>, ks: seq<Skel<V>>, b: seq<Skel<V>>, t: Tree<V>, j: nat, p: Pair<V>)
    requires t.Inner? && |t.children| == |t.keys| + 1 && |a| == j < |t.keys|
    requires KidsRep(a, t.children[..j]) && KidsRep(ks, PairTrees(p)) && KidsRep(b, t.children[j + 2..])
    requires !parent.leaf && parent.keys == WithPair(t, j, p).keys
    requires parent.children == Roots(a) + Roots(ks) + Roots(b)
    ensures Rep(Skel(parent, a + ks + b), WithPair(t, j, p))
  {
    KidsRepLength(a, t.children[..j]);
    KidsRepLength(ks, PairTrees(p));
    KidsRepLength(b, t.children[j + 2..]);
    hide KidsRep, KidsDistinct, KidNodes, KidLeaves, Roots, WithPair;
    Append3(a, ks, b);
    RepAppend3(a, ks, b, t.children[..j], PairTrees(p), t.children[j + 2..]);
    WithPairChildren(t, j, p);
  }

  lemma {:induction false} PairPutApart<V>(parent: Node<V>, a: seq<Skel<V>>, ks: seq<Skel<V>>, b: seq<Skel<V>>)
    requires KidsDistinct(a) && KidsDistinct(ks) && KidsDistinct(b)
    requires KidNodes(a) !! KidNodes(ks) && KidNodes(a) !! KidNodes(b) && KidNodes(ks) !! KidNodes(b)
    requires parent !in KidNodes(a) + KidNodes(ks) + KidNodes(b) && ks != []
    ensures Distinct(Skel(parent, a + ks + b))
    ensures Nodes(Skel(parent, a + ks + b)) == {parent} + KidNodes(a) + KidNodes(ks) + KidNodes(b)
    ensures LeafNodes(Skel(parent, a + ks + b)) == KidLeaves(a) + KidLeaves(ks) + KidLeaves(b)
  {
    hide KidNodes, KidLeaves, KidsDistinct;
    Append3(a, ks, b);
  }

  /** Where two neighbouring leaves stand in the chain. */
  lemma {:induction false} LeafPairInChain<V>(sk: Skel<V>, j: nat, pre: seq<Node<V>>, post: seq<Node<V>>)
    requires Distinct(sk) && j + 1 < |sk.kids| && sk.kids[j].kids == [] && sk.kids[j + 1].kids == []
    ensures var A, B := KidLeaves(sk.kids[..j]), KidLeaves(sk.kids[j + 2..]);
            var l, r := sk.kids[j].node, sk.kids[j + 1].node;
            && pre + LeafNodes(sk) + post == (pre + A) + [l, r] + (B + post)
            && pre + (A + LeafNodes(sk.kids[j]) + B) + post == (pre + A) + [l] + (B + post)
    ensures forall x :: x in KidLeaves(sk.kids[j + 2..]) ==> x in Nodes(sk)
  {
    hide KidNodes, KidLeaves, KidsDistinct, Roots;
    PairApart(sk, j);
    var A, B := KidLeaves(sk.kids[..j]), KidLeaves(sk.kids[j + 2..]);
    Regroup(pre, A, [sk.kids[j].node, sk.kids[j + 1].node], B, post);
    Regroup(pre, A, [sk.kids[j].node], B, post);
    assert LeafNodes(sk.kids[j]) + LeafNodes(sk.kids[j + 1]) == [sk.kids[j].node, sk.kids[j + 1].node];
    LeavesAreNodes(sk.kids[j + 2..]);
  }

  lemma {:induction false} UpdateParts<T>(s: seq<T>, i: nat, x: T)
    requires i < |s|
    ensures s[i := x] == s[..i] + [x] + s[i + 1..]
  {
  }

  /** A node after its child i became k. */
  lemma {:induction false} KidPut<V>(sk: Skel<V>, t: Tree<V>, i: nat, k: Skel<V>, c: Tree<V>)
    requires t.Inner? && i < |t.children| == |sk.kids| && !sk.node.leaf && sk.node.keys == t.keys
    requires sk.node.children == Roots(sk.kids) && k.node == sk.kids[i].node
    requires KidsRep(sk.kids[..i], t.children[..i]) && Rep(k, c) && KidsRep(sk.kids[i + 1..], t.children[i + 1..])
    ensures Rep(Skel(sk.node, sk.kids[..i] + [k] + sk.kids[i + 1..]), Inner(t.keys, t.children[i := c]))
  {
    var a, b := sk.kids[..i], sk.kids[i + 1..];
    assert sk.kids == a + [sk.kids[i]] + b;
    hide KidsRep, KidsDistinct, KidNodes, KidLeaves, Roots;
    UpdateParts(t.children, i, c);
    Append3(a, [sk.kids[i]], b);
    Append3(a, [k], b);
    KidsOne(k);
    KidsOne(sk.kids[i]);
    KidsRepOne(k, c);
    RepAppend3(a, [k], b, t.children[..i], [c], t.children[i + 1..]);
  }

  lemma {:induction false} KidPutApart<V>(sk: Skel<V>, i: nat, k: Skel<V>, pre: seq<Node<V>>, post: seq<Node<V>>)
    requires Distinct(sk) && i < |sk.kids| && Distinct(k) && Nodes(k) <= Nodes(sk.kids[i])
    ensures var u := Skel(sk.node, sk.kids[..i] + [k] + sk.kids[i + 1..]);
            && Distinct(u) && Nodes(u) <= Nodes(sk) && (k == sk.kids[i] ==> u == sk)
            && pre + LeafNodes(u) + post
            == (pre + KidLeaves(sk.kids[..i])) + LeafNodes(k) + (KidLeaves(sk.kids[i + 1..]) + post)
  {
    var a, b := sk.kids[..i], sk.kids[i + 1..];
    assert sk.kids == a + [sk.kids[i]] + b;
    hide KidsDistinct, KidNodes, KidLeaves;
    Append3(a, [sk.kids[i]], b);
    Append3(a, [k], b);
    KidsOne(k);
    KidsOne(sk.kids[i]);
    Regroup(pre, KidLeaves(a), LeafNodes(k), KidLeaves(b), post);
  }

  // ---- the chain lists the entries

  /** The entries met on the way along a list of leaves. */
  ghost function Along<V>(c: seq<Node<V>>): Entries<V>
    reads c`keys, c`values
  {
    if c == [] then []
    else (if |c[0].keys| == |c[0].values| then Zip(c[0].keys, c[0].values) else []) + Along(c[1..])
  }

  lemma {:induction false} AlongAppend<V>(a: seq<Node<V>>, b: seq<Node<V>>)
    ensures Along(a + b) == Along(a) + Along(b)
  {
    var ab := a + b;
    if a == [] {
      assert ab == b;
    } else {
      assert ab[0] == a[0] && ab[1..] == a[1..] + b;
      AlongAppend(a[1..], b);
    }
  }

  /** The leaves of the heap are the leaves of the tree, one by one. */
  ghost predicate HoldLeaves<V>(c: seq<Node<V>>, ls: seq<Tree<V>>)
    reads c
  {
    && |c| == |ls|
    && forall i :: 0 <= i < |c| ==> ls[i].Leaf? && c[i].leaf && c[i].keys == ls[i].keys && c[i].values == ls[i].values
  }

  /** A node of the tree that is a leaf is one of its leaves. */
  lemma {:induction false} LeafListed<V>(sk: Skel<V>, t: Tree<V>, x: Node<V>)
    requires Rep(sk, t) && x in Nodes(sk) && x.leaf
    ensures x in LeafNodes(sk)
    decreases sk, 0
  {
    if sk.kids != [] {
      KidsListed(sk.kids, t.children, x);
    }
  }

  lemma {:induction false} KidsListed<V>(kids: seq<Skel<V>>, ts: seq<Tree<V>>, x: Node<V>)
    requires KidsRep(kids, ts) && x in KidNodes(kids) && x.leaf
    ensures x in KidLeaves(kids)
    decreases kids
  {
    if x in Nodes(kids[0]) {
      LeafListed(kids[0], ts[0], x);
    } else {
      KidsListed(kids[1..], ts[1..], x);
    }
  }

  lemma {:induction false} LeavesHeld<V>(sk: Skel<V>, t: Tree<V>, h: nat)
    requires Rep(sk, t) && Formed(t, h)
    ensures HoldLeaves(LeafNodes(sk), Leaves(t)) && LeafNodes(sk) != []
    ensures Along(LeafNodes(sk)) == EntriesOf(t)
    decreases h, 0
  {
    if t.Inner? {
      KidLeavesHeld(sk.kids, t.children, h - 1);
    } else {
      assert LeafNodes(sk)[1..] == [];
    }
  }

  lemma {:induction false} KidLeavesHeld<V>(kids: seq<Skel<V>>, ts: seq<Tree<V>>, h: nat)
    requires KidsRep(kids, ts) && forall i :: 0 <= i < |ts| ==> Formed(ts[i], h)
    ensures HoldLeaves(KidLeaves(kids), AllLeaves(ts)) && (kids != [] ==> KidLeaves(kids) != [])
    ensures Along(KidLeaves(kids)) == Flat(ts)
    decreases h, 1, |kids|
  {
    if kids != [] {
      LeavesHeld(kids[0], ts[0], h);
      KidLeavesHeld(kids[1..], ts[1..], h);
      AlongAppend(LeafNodes(kids[0]), KidLeaves(kids[1..]));
    }
  }
}
