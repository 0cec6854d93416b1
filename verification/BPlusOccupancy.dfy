/** Trees grown by insertions alone: half-full nodes, hence logarithmic height. */
module BPlusOccupancy {
  import opened SortedEntries
  import opened BPlusModel
  import opened BPlusRuns

  /** The node and everything below it holds at least m keys a leaf and m children an inner node. */
  ghost predicate Full<V>(t: Tree<V>, h: nat, m: nat)
    requires Formed(t, h)
    decreases h, 1
  {
    (if t.Leaf? then |t.keys| >= m else |t.children| >= m) && KidsFull(t, h, m)
  }

  ghost predicate KidsFull<V>(t: Tree<V>, h: nat, m: nat)
    requires Formed(t, h)
    decreases h, 0
  {
    t.Inner? ==> forall i :: 0 <= i < |t.children| ==> Full(t.children[i], h - 1, m)
  }

  /** An insertion leaves half-full nodes half full, and the halves of a split are half full. */
  ghost predicate FullAfter<V>(t: Tree<V>, r: Insertion<V>, h: nat, m: nat)
    requires Formed(t, h)
  {
    match r
    case Fits(u) => Formed(u, h) && KidsFull(u, h, m) && |u.keys| >= |t.keys|
    case Splits(l, _, r) => Formed(l, h) && Formed(r, h) && Full(l, h, m) && Full(r, h, m)
  }

  lemma {:induction false} LeafFullAfter<V>(t: Tree<V>, key: int, value: V, order: int)
    requires order >= 2 && Formed(t, 0)
    ensures FullAfter(t, InsertInto(t, 0, key, value, order), 0, order / 2)
  {
  }

  lemma {:induction false} HalvesFull<V>(t: Tree<V>, h: nat, i: nat, l: Tree<V>, s: int, r: Tree<V>, m: nat)
    requires Formed(t, h) && t.Inner? && KidsFull(t, h, m) && i < |t.children|
    requires Formed(l, h - 1) && Formed(r, h - 1) && Full(l, h - 1, m) && Full(r, h - 1, m)
    ensures Formed(WithHalves(t, i, l, s, r), h) && KidsFull(WithHalves(t, i, l, s, r), h, m)
    ensures |WithHalves(t, i, l, s, r).keys| == |t.keys| + 1
  {
    var u := WithHalves(t, i, l, s, r);
    forall n | 0 <= n < |u.children| ensures Formed(u.children[n], h - 1) && Full(u.children[n], h - 1, m) {
      if n < i {
        assert u.children[n] == t.children[n];
      } else if n > i + 1 {
        assert u.children[n] == t.children[n - 1];
      }
    }
  }

  lemma {:induction false} SplitInnerFull<V>(t: Tree<V>, h: nat, order: int)
    requires order >= 2 && Formed(t, h) && t.Inner? && KidsFull(t, h, order / 2) && |t.keys| >= order
    ensures FullAfter(t, SplitInner(t.keys, t.children), h, order / 2)
  {
    var m, mid := order / 2, |t.keys| / 2;
    var l, r := Inner(t.keys[..mid], t.children[..mid + 1]), Inner(t.keys[mid + 1..], t.children[mid + 1..]);
    assert Formed(l, h) && Formed(r, h);
    assert forall i :: 0 <= i < |l.children| ==> Full(l.children[i], h - 1, m);
    assert forall i :: 0 <= i < |r.children| ==> Full(r.children[i], h - 1, m);
  }

  lemma {:induction false} ReplaceFull<V>(t: Tree<V>, h: nat, i: nat, c: Tree<V>, m: nat)
    requires Formed(t, h) && t.Inner? && KidsFull(t, h, m) && i < |t.children|
    requires Formed(c, h - 1) && Full(c, h - 1, m)
    ensures FullAfter(t, Fits(Inner(t.keys, t.children[i := c])), h, m)
  {
    ReplaceFormed(t, h, i, c);
  }

  lemma {:induction false} InsertFull<V>(t: Tree<V>, h: nat, key: int, value: V, order: int)
    requires order >= 2 && Formed(t, h) && KidsFull(t, h, order / 2)
    ensures FullAfter(t, InsertInto(t, h, key, value, order), h, order / 2)
    decreases h
  {
    if t.Leaf? {
      LeafFullAfter(t, key, value, order);
    } else {
      var i := UpperBound(t.keys, key);
      var below := InsertInto(t.children[i], h - 1, key, value, order);
      InsertFull(t.children[i], h - 1, key, value, order);
      InnerFullAfter(t, h, i, below, order);
    }
    hide AfterChild, FullAfter, KidsFull, LowerBound, UpperBound;
  }

  lemma {:induction false} InnerFullAfter<V>(t: Tree<V>, h: nat, i: nat, below: Insertion<V>, order: int)
    requires order >= 2 && Formed(t, h) && t.Inner? && KidsFull(t, h, order / 2) && i < |t.children|
    requires FullAfter(t.children[i], below, h - 1, order / 2)
    ensures FullAfter(t, AfterChild(t, i, below, order), h, order / 2)
  {
    match below {
      case Fits(c) => ReplaceFull(t, h, i, c, order / 2);
      case Splits(l, s, r) =>
        HalvesFull(t, h, i, l, s, r, order / 2);
        var u := WithHalves(t, i, l, s, r);
        if |u.keys| > order - 1 {
          SplitInnerFull(u, h, order);
        }
    }
    hide WithHalves, SplitInner, KidsFull, Full;
  }

  // ---- counting

  ghost function Pow(m: nat, e: nat): nat {
    if e == 0 then 1 else m * Pow(m, e - 1)
  }

  lemma {:induction false} FullHoldsMany<V>(t: Tree<V>, h: nat, m: nat)
    requires Formed(t, h) && Full(t, h, m)
    ensures |EntriesOf(t)| >= Pow(m, h + 1)
    decreases h, 1, 0
  {
    if t.Inner? {
      ManyHoldMany(t.children, h - 1, m);
      Times(m, |t.children|, Pow(m, h));
    }
  }

  lemma {:induction false} Times(a: nat, b: nat, c: nat)
    requires a <= b
    ensures a * c <= b * c
  {
  }

  lemma {:induction false} ManyHoldMany<V>(ts: seq<Tree<V>>, h: nat, m: nat)
    requires forall i :: 0 <= i < |ts| ==> Formed(ts[i], h) && Full(ts[i], h, m)
    ensures |Flat(ts)| >= |ts| * Pow(m, h + 1)
    decreases h, 2, |ts|
  {
    if ts != [] {
      FullHoldsMany(ts[0], h, m);
      ManyHoldMany(ts[1..], h, m);
      assert |ts| * Pow(m, h + 1) == Pow(m, h + 1) + |ts[1..]| * Pow(m, h + 1);
    }
  }

  // ---- runs of insertions

  ghost predicate HalfFull<V>(root: Root<V>, order: int)
    requires order >= 2 && Good(root, order)
  {
    if root.None? then true
    else
      GoodIsFormed(root.value, order);
      KidsFull(root.value, Height(root.value), order / 2) && (root.value.Inner? ==> |root.value.children| >= 2)
  }

  lemma {:induction false} InsertHalfFull<V>(root: Root<V>, key: int, value: V, order: int)
    requires order >= 2 && Good(root, order) && HalfFull(root, order)
    ensures Good(Insert(root, key, value, order), order) && HalfFull(Insert(root, key, value, order), order)
  {
    InsertOk(root, key, value, order);
    if root.Some? {
      var t, h := root.value, Height(root.value);
      GoodIsFormed(t, order);
      InsertFull(t, h, key, value, order);
      GrownHalfFull(t, h, InsertInto(t, h, key, value, order), order / 2);
    }
    hide InsertInto, FullAfter, KidsFull, Ok, OkAt, EntriesOf;
  }

  lemma {:induction false} GrownHalfFull<V>(t: Tree<V>, h: nat, r: Insertion<V>, m: nat)
    requires Formed(t, h) && FullAfter(t, r, h, m) && (t.Inner? ==> |t.children| >= 2)
    ensures var u := GrowRoot(r);
            Formed(u, Height(u)) && KidsFull(u, Height(u), m) && (u.Inner? ==> |u.children| >= 2)
  {
    var u := GrowRoot(r);
    HeightIs(u, if r.Fits? then h else h + 1);
  }

  lemma {:induction false} InsertRunHalfFull<V>(ops: seq<Op<V>>, order: int)
    requires order >= 2 && forall i :: 0 <= i < |ops| ==> ops[i].PutOp?
    ensures HalfFull(Run(ops, order), order)
  {
    hide HalfFull, Good;
    if ops == [] {
      EmptyHalfFull<V>(order);
    } else {
      var n := |ops| - 1;
      InsertRunHalfFull(ops[..n], order);
      InsertHalfFull(Run(ops[..n], order), ops[n].key, ops[n].value, order);
    }
  }

  lemma {:induction false} EmptyHalfFull<V>(order: int)
    requires order >= 2
    ensures HalfFull(Run<V>([], order), order)
  {
  }

  lemma {:induction false} RootHoldsMany<V>(t: Tree<V>, h: nat, m: nat)
    requires Formed(t, h) && t.Inner? && KidsFull(t, h, m) && |t.children| >= 2
    ensures |EntriesOf(t)| >= 2 * Pow(m, h)
  {
    ManyHoldMany(t.children, h - 1, m);
    Times(2, |t.children|, Pow(m, h));
  }

  /** Height + 1 levels over n stored keys: 2 * (order / 2) ^ Height <= n. */
  lemma {:induction false} InsertOnlyHeight<V>(ops: seq<Op<V>>, order: int)
    requires order >= 2 && forall i :: 0 <= i < |ops| ==> ops[i].PutOp?
    requires var root := Run(ops, order); root.Some? && Height(root.value) >= 1
    ensures |MapRun(ops)| >= 2 * Pow(order / 2, Height(Run(ops, order).value))
  {
    var t := Run(ops, order).value;
    InsertRunHalfFull(ops, order);
    GoodIsFormed(t, order);
    hide Run, MapRun, Good, Flat, EntriesOf, Pow, ToMap, KidsFull, Ascending;
    RunIsMap(ops, order);
    MapSize(EntriesOf(t));
    RootHoldsMany(t, Height(t), order / 2);
  }

  // ---- the most a tree can hold

  /** An inner node of m children with at most c entries each, and m no more than the order. */
  lemma {:induction false} AtMost(order: nat, m: nat, h: nat, total: nat)
    requires 1 <= m <= order && total <= m * ((order - 1) * Pow(order, h))
    ensures total <= (order - 1) * Pow(order, h + 1)
  {
    var p := Pow(order, h);
    Times(m, order, (order - 1) * p);
    assert order * ((order - 1) * p) == (order - 1) * (order * p);
  }

  lemma {:induction false} HoldsAtMost<V>(t: Tree<V>, h: nat, lo: int, hi: int, order: int)
    requires order >= 2 && Ok(t, h, lo, hi, order - 1)
    ensures |EntriesOf(t)| <= (order - 1) * Pow(order, h)
    decreases h
  {
    hide Pow, EntriesOf, Flat;
    if t.Leaf? {
      LeafHolds(t, order);
    } else {
      var cs, most := t.children, (order - 1) * Pow(order, h - 1);
      forall i | 0 <= i < |cs| ensures |EntriesOf(cs[i])| <= most {
        HoldsAtMost(cs[i], h - 1, LoAt(t.keys, i, lo), HiAt(t.keys, i, hi), order);
      }
      FlatAtMost(cs, most);
      AtMost(order, |cs|, h - 1, |Flat(cs)|);
      InnerHolds(t);
    }
  }

  lemma {:induction false} LeafHolds<V>(t: Tree<V>, order: int)
    requires order >= 2 && t.Leaf? && |t.keys| == |t.values| <= order - 1
    ensures |EntriesOf(t)| <= (order - 1) * Pow(order, 0)
  {
  }

  lemma {:induction false} InnerHolds<V>(t: Tree<V>)
    requires t.Inner?
    ensures EntriesOf(t) == Flat(t.children)
  {
  }

  lemma {:induction false} FlatAtMost<V>(ts: seq<Tree<V>>, most: nat)
    requires forall i :: 0 <= i < |ts| ==> |EntriesOf(ts[i])| <= most
    ensures |Flat(ts)| <= |ts| * most
  {
    if ts != [] {
      FlatAtMost(ts[1..], most);
      assert |ts| * most == most + |ts[1..]| * most;
    }
  }

  lemma {:induction false} PowGrows(m: nat, d: nat, e: nat)
    requires m >= 1 && d <= e
    ensures 1 <= Pow(m, d) <= Pow(m, e)
  {
    if d < e {
      PowGrows(m, d, e - 1);
      Times(1, m, Pow(m, e - 1));
    } else if e > 0 {
      PowGrows(m, d - 1, e - 1);
      Times(1, m, Pow(m, e - 1));
    }
  }

  /** A tree grown by insertions has as many levels as the number of its entries calls for: too many for one level less, too few
      for one level more. */
  lemma {:induction false} GrownHeight<V>(root: Root<V>, order: int, h: nat)
    requires order >= 2 && Good(root, order) && HalfFull(root, order) && root.Some?
    requires 1 <= h && (order - 1) * Pow(order, h - 1) < |Contents(root)| < 2 * Pow(order / 2, h + 1)
    ensures Height(root.value) == h
  {
    var t := root.value;
    var g := Height(t);
    GoodIsFormed(t, order);
    var lo, hi := BoundsFor(t, order, 0);
    HoldsAtMost(t, g, lo, hi, order);
    if g < h {
      PowGrows(order, g, h - 1);
      Times(Pow(order, g), Pow(order, h - 1), order - 1);
      assert false;
    }
    if g > h {
      RootHoldsMany(t, g, order / 2);
      PowGrows(order / 2, h + 1, g);
      assert false;
    }
    hide Good, KidsFull, Pow, EntriesOf;
  }
}
