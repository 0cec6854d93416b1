/** What insertions and deletions do to the height of the tree, to its outermost leaves and to its occupancy. */
module BPlusShape {
  import opened SortedEntries
  import opened BPlusModel
  import opened BPlusRuns

  // ---- the leaves, left to right

  ghost function Leaves<V>(t: Tree<V>): (ls: seq<Tree<V>>) {
    match t
    case Leaf(_, _) => [t]
    case Inner(_, children) => AllLeaves(children)
  }

  ghost function AllLeaves<V>(ts: seq<Tree<V>>): seq<Tree<V>> {
    if ts == [] then [] else Leaves(ts[0]) + AllLeaves(ts[1..])
  }

  /** Reading the leaves from left to right lists exactly the entries. */
  lemma {:induction false} LeavesList<V>(t: Tree<V>, h: nat)
    requires Formed(t, h)
    ensures Leaves(t) != [] && Flat(Leaves(t)) == EntriesOf(t)
    ensures forall l :: l in Leaves(t) ==> l.Leaf? && Formed(l, 0)
    decreases h, 0
  {
    match t
    case Leaf(_, _) => FlatOne(t);
    case Inner(_, children) => AllLeavesList(children, h - 1);
  }

  lemma {:induction false} AllLeavesList<V>(ts: seq<Tree<V>>, h: nat)
    requires forall i :: 0 <= i < |ts| ==> Formed(ts[i], h)
    ensures Flat(AllLeaves(ts)) == Flat(ts) && (ts != [] ==> AllLeaves(ts) != [])
    ensures forall l :: l in AllLeaves(ts) ==> l.Leaf? && Formed(l, 0)
    decreases h, 1, |ts|
  {
    if ts != [] {
      LeavesList(ts[0], h);
      AllLeavesList(ts[1..], h);
      FlatAppend(Leaves(ts[0]), AllLeaves(ts[1..]));
    }
  }

  // ---- min and max look at the outermost leaf only

  ghost function MinEntry<V>(root: Root<V>): Option<(int, V)>
    requires root.Some? ==> Formed(root.value, Height(root.value))
  {
    if root.None? then None
    else
      LeavesList(root.value, Height(root.value));
      var l := Leaves(root.value)[0];
      if |l.keys| == 0 then None else Some((l.keys[0], l.values[0]))
  }

  ghost function MaxEntry<V>(root: Root<V>): Option<(int, V)>
    requires root.Some? ==> Formed(root.value, Height(root.value))
  {
    if root.None? then None
    else
      LeavesList(root.value, Height(root.value));
      var ls := Leaves(root.value);
      var l := ls[|ls| - 1];
      if |l.keys| == 0 then None else Some((l.keys[|l.keys| - 1], l.values[|l.keys| - 1]))
  }

  ghost function First<V>(es: Entries<V>): Option<(int, V)> {
    if es == [] then None else Some(es[0])
  }

  ghost function Last<V>(es: Entries<V>): Option<(int, V)> {
    if es == [] then None else Some(es[|es| - 1])
  }

  /** minEntry is the entry with the least key exactly when the first leaf holds something or nothing is stored. */
  lemma {:induction false} MinEntryIff<V>(t: Tree<V>)
    requires Formed(t, Height(t))
    ensures Leaves(t) != []
    ensures MinEntry(Some(t)) == First(EntriesOf(t)) <==> Leaves(t)[0].keys != [] || EntriesOf(t) == []
  {
    LeavesList(t, Height(t));
    var ls := Leaves(t);
    assert Flat(ls) == EntriesOf(ls[0]) + Flat(ls[1..]);
    assert EntriesOf(ls[0]) == Zip(ls[0].keys, ls[0].values);
    hide Leaves, Flat;
  }

  lemma {:induction false} MaxEntryIff<V>(t: Tree<V>)
    requires Formed(t, Height(t))
    ensures Leaves(t) != []
    ensures var ls := Leaves(t);
            MaxEntry(Some(t)) == Last(EntriesOf(t)) <==> ls[|ls| - 1].keys != [] || EntriesOf(t) == []
  {
    LeavesList(t, Height(t));
    var ls := Leaves(t);
    hide Leaves;
    LastLeafEntries(ls);
  }

  lemma {:induction false} LastLeafEntries<V>(ls: seq<Tree<V>>)
    requires ls != [] && ls[|ls| - 1].Leaf? && Formed(ls[|ls| - 1], 0)
    ensures var l := ls[|ls| - 1]; var n := |l.keys|;
            if n == 0 then true else Last(Flat(ls)) == Some((l.keys[n - 1], l.values[n - 1]))
  {
    var n := |ls| - 1;
    assert ls == ls[..n] + [ls[n]];
    FlatAppend(ls[..n], [ls[n]]);
    FlatOne(ls[n]);
    hide Flat;
  }

  // ---- trees of one or two levels have no empty leaf; taller trees never get shorter

  /** In a one-level or two-level tree every leaf holds something; an internal root has two children or more. */
  ghost predicate Solid<V>(t: Tree<V>, h: nat) {
    && |t.keys| > 0
    && (h == 1 ==> t.Inner? && forall i :: 0 <= i < |t.children| ==> |t.children[i].keys| > 0)
  }

  lemma {:induction false} LeafInsertHolds<V>(t: Tree<V>, key: int, value: V, order: int)
    requires order >= 2 && Formed(t, 0)
    ensures var r := InsertInto(t, 0, key, value, order);
            if r.Fits? then |r.tree.keys| > 0 else |r.left.keys| > 0 && |r.right.keys| > 0
  {
  }

  /** The two halves of an overfull node, or the node itself, still hold separators. */
  lemma {:induction false} AfterChildSolid<V>(t: Tree<V>, h: nat, i: nat, below: Insertion<V>, order: int)
    requires order >= 2 && t.Inner? && |t.children| == |t.keys| + 1 && i < |t.children| && Solid(t, h)
    requires h == 1 ==> if below.Fits? then |below.tree.keys| > 0 else |below.left.keys| > 0 && |below.right.keys| > 0
    ensures AfterChild(t, i, below, order).Fits? ==> Solid(AfterChild(t, i, below, order).tree, h)
  {
    hide Spliced;
    match below
    case Fits(c) =>
    case Splits(l, s, r) =>
      var u := WithHalves(t, i, l, s, r);
      if h == 1 {
        forall n | 0 <= n < |u.children| ensures |u.children[n].keys| > 0 {
          assert n > i + 1 ==> u.children[n] == t.children[n - 1];
        }
      }
  }

  lemma {:induction false} InsertIntoSolid<V>(t: Tree<V>, h: nat, key: int, value: V, order: int)
    requires order >= 2 && Formed(t, h) && Solid(t, h)
    ensures var r := InsertInto(t, h, key, value, order);
            && (r.Fits? ==> Solid(r.tree, h))
            && (r.Splits? && h == 0 ==> |r.left.keys| > 0 && |r.right.keys| > 0)
  {
    if h == 0 {
      LeafInsertHolds(t, key, value, order);
    } else {
      var i := UpperBound(t.keys, key);
      if h == 1 {
        LeafInsertHolds(t.children[i], key, value, order);
      }
      AfterChildSolid(t, h, i, InsertInto(t.children[i], h - 1, key, value, order), order);
    }
    hide AfterChild, UpperBound, LowerBound;
  }

  /** What holds of the root of a low tree, and of any internal root. */
  ghost predicate SolidIfLow<V>(root: Root<V>) {
    root.Some? ==>
      && (Height(root.value) <= 1 ==> Solid(root.value, Height(root.value)))
      && (root.value.Inner? ==> |root.value.keys| > 0)
  }

  lemma {:induction false} InsertKeepsSolid<V>(root: Root<V>, key: int, value: V, order: int)
    requires order >= 2 && Good(root, order) && SolidIfLow(root)
    ensures SolidIfLow(Insert(root, key, value, order))
    ensures root.Some? ==> Height(Insert(root, key, value, order).value) >= Height(root.value)
  {
    if root.Some? {
      var t := root.value;
      var lo, hi := BoundsFor(t, order, key);
      InsertIntoOk(t, Height(t), key, value, lo, hi, order);
      var r := InsertInto(t, Height(t), key, value, order);
      GrowRootOk(r, Height(t), lo, hi, order, Put(EntriesOf(t), key, value));
      InsertIntoSolid(t, Height(t), key, value, order);
      hide Put, EntriesOf, InsertInto, Ok, InsertedOk, OkAt;
      LowOrInner(t, r, order);
    }
  }

  lemma {:induction false} LowOrInner<V>(t: Tree<V>, r: Insertion<V>, order: int)
    requires Formed(t, Height(t)) && Height(GrowRoot(r)) >= Height(t)
    requires r.Fits? ==> Solid(r.tree, Height(t)) && Height(r.tree) == Height(t)
    requires r.Splits? ==> Height(GrowRoot(r)) == Height(t) + 1
    requires r.Splits? && Height(t) == 0 ==> |r.left.keys| > 0 && |r.right.keys| > 0
    ensures SolidIfLow(Some(GrowRoot(r)))
  {
  }

  // ---- deletion

  lemma {:induction false} RebalancedLowSolid<V>(t: Tree<V>, i: nat, minKeys: nat)
    requires minKeys >= 1 && Formed(t, 1) && t.Inner? && i < |t.children| && |t.keys| > 0
    requires forall j :: 0 <= j < |t.children| && j != i ==> |t.children[j].keys| > 0
    ensures var u := Rebalance(t, 1, i, minKeys);
            u.Inner? && forall j :: 0 <= j < |u.children| ==> |u.children[j].keys| > 0
  {
  }

  lemma {:induction false} ShrinkRootHeight<V>(t: Tree<V>, h: nat)
    requires Formed(t, h)
    ensures var r := ShrinkRoot(t); r.Some? ==> Height(r.value) == (if h > 0 && |t.children| == 1 then h - 1 else h)
  {
    var u := if t.Inner? && |t.children| == 1 then t.children[0] else t;
    HeightIs(u, if h > 0 && |t.children| == 1 then h - 1 else h);
  }

  /** Deleting never makes the tree higher. */
  lemma {:induction false} DeleteNeverGrows<V>(root: Root<V>, key: int, order: int)
    requires order >= 2 && Good(root, order)
    ensures var r := After(root, DelOp(key), order); r.Some? ==> root.Some? && Height(r.value) <= Height(root.value)
  {
    hide Good, DeleteFrom, ShrinkRoot, Height, Ordered, EntriesOf, Del, Find;
    if root.Some? {
      var t := root.value;
      var lo, hi := BoundsFor(t, order, key);
      DeleteFromOk(t, Height(t), key, lo, hi, true, order);
      var r := DeleteFrom(t, Height(t), key, true, order / 2);
      if r.Some? {
        OrderedIsFormed(r.value, Height(t), lo, hi, order - 1);
        ShrinkRootHeight(r.value, Height(t));
      }
    }
  }

  /** Once the tree has three levels or more its root never loses a child: deleting leaves the height as it is, even
      when no entry is left. */
  lemma {:induction false} TallStaysTall<V>(root: Root<V>, key: int, order: int)
    requires order >= 2 && Good(root, order) && SolidIfLow(root) && root.Some? && Height(root.value) >= 2
    ensures var r := Delete(root, key, order);
            r.Some? ==> r.value.Some? && SolidIfLow(r.value) && Height(r.value.value) == Height(root.value)
  {
    var t, h := root.value, Height(root.value);
    GoodIsFormed(t, order);
    var i := UpperBound(t.keys, key);
    var r := DeleteFrom(t.children[i], h - 1, key, false, order / 2);
    if r.Some? {
      assert !Underfull(r.value, 1);
      ReplaceFormed(t, h, i, r.value);
      ShrinkRootHeight(Inner(t.keys, t.children[i := r.value]), h);
    }
    hide Good, Height;
  }

  lemma {:induction false} LowDeleteKeepsSolid<V>(root: Root<V>, key: int, order: int)
    requires order >= 2 && Good(root, order) && SolidIfLow(root) && root.Some? && Height(root.value) == 1
    ensures var r := Delete(root, key, order); r.Some? ==> SolidIfLow(r.value)
  {
    var t := root.value;
    GoodIsFormed(t, order);
    var i := UpperBound(t.keys, key);
    var r := DeleteFrom(t.children[i], 0, key, false, order / 2);
    if r.Some? {
      ReplaceFormed(t, 1, i, r.value);
      var u := AfterDelete(t, 1, i, r.value, true, order / 2);
      var w := Inner(t.keys, t.children[i := r.value]);
      if Underfull(r.value, 1) {
        RebalancedLowSolid(w, i, order / 2);
        RebalanceFormed(w, 1, i, order / 2);
      }
      assert forall j :: 0 <= j < |u.children| ==> |u.children[j].keys| > 0;
      assert DeleteFrom(t, 1, key, true, order / 2) == Some(u);
      hide Rebalance, AfterDelete, DeleteFrom, Good;
      ShrinkRootHeight(u, 1);
      ShrunkIsSolid(u);
    }
    hide Rebalance, AfterDelete, Good;
  }

  /** Only the last entry of a single leaf takes the tree with it. */
  lemma {:induction false} OnlyALeafVanishes<V>(root: Root<V>, key: int, order: int)
    requires order >= 2 && Good(root, order) && SolidIfLow(root) && After(root, DelOp(key), order).None?
    ensures root.Some? ==> root.value.Leaf?
  {
    if root.Some? && Height(root.value) >= 2 {
      TallStaysTall(root, key, order);
    } else if root.Some? && Height(root.value) == 1 {
      LowStays(root, key, order);
    }
    hide Good, Delete;
  }

  lemma {:induction false} LowStays<V>(root: Root<V>, key: int, order: int)
    requires order >= 2 && Good(root, order) && SolidIfLow(root) && root.Some? && Height(root.value) == 1
    ensures After(root, DelOp(key), order).Some?
  {
    var t := root.value;
    GoodIsFormed(t, order);
    var i := UpperBound(t.keys, key);
    var r := DeleteFrom(t.children[i], 0, key, false, order / 2);
    if r.Some? {
      ReplaceFormed(t, 1, i, r.value);
      var w := Inner(t.keys, t.children[i := r.value]);
      if Underfull(r.value, 1) {
        RebalancedLowSolid(w, i, order / 2);
        RebalanceFormed(w, 1, i, order / 2);
      }
    }
    hide Rebalance, Good;
  }

  lemma {:induction false} ShrunkIsSolid<V>(u: Tree<V>)
    requires Formed(u, 1) && forall j :: 0 <= j < |u.children| ==> |u.children[j].keys| > 0
    ensures SolidIfLow(ShrinkRoot(u))
  {
    HeightIs(u, 1);
  }

  lemma {:induction false} AfterKeepsSolid<V>(root: Root<V>, op: Op<V>, order: int)
    requires order >= 2 && Good(root, order) && SolidIfLow(root)
    ensures SolidIfLow(After(root, op, order))
    ensures root.Some? && Height(root.value) >= 2 ==>
              After(root, op, order).Some? && Height(After(root, op, order).value) >= Height(root.value)
  {
    match op
    case PutOp(k, v) => InsertKeepsSolid(root, k, v, order);
    case DelOp(k) =>
      if root.Some? {
        if Height(root.value) >= 2 {
          TallStaysTall(root, k, order);
        } else if Height(root.value) == 1 {
          LowDeleteKeepsSolid(root, k, order);
        } else {
          GoodIsFormed(root.value, order);
        }
      }
  }

  lemma {:induction false} RunIsSolid<V>(ops: seq<Op<V>>, order: int)
    requires order >= 2
    ensures SolidIfLow(Run(ops, order))
  {
    hide SolidIfLow, Good, After;
    if ops != [] {
      RunIsSolid(ops[..|ops| - 1], order);
      AfterKeepsSolid(Run(ops[..|ops| - 1], order), ops[|ops| - 1], order);
    } else {
      EmptyIsSolid<V>(order);
    }
  }

  lemma {:induction false} EmptyIsSolid<V>(order: int)
    requires order >= 2
    ensures SolidIfLow(Run<V>([], order))
  {
  }

  /** A tree of at most two levels answers min and max truly. */
  lemma {:induction false} LowHasTrueExtremes<V>(root: Root<V>, order: int)
    requires order >= 2 && Good(root, order) && SolidIfLow(root)
    ensures root.Some? ==> Formed(root.value, Height(root.value))
    ensures (root.Some? && Height(root.value) >= 2)
            || (MinEntry(root) == First(Contents(root)) && MaxEntry(root) == Last(Contents(root)))
  {
    if root.Some? {
      var t := root.value;
      GoodIsFormed(t, order);
      if Height(t) <= 1 {
        SolidEnds(t);
        MinEntryIff(t);
        MaxEntryIff(t);
      }
    }
    hide Good, MinEntry, MaxEntry, Leaves, SolidIfLow;
  }

  lemma {:induction false} LowRunsHaveTrueExtremes<V>(ops: seq<Op<V>>, order: int)
    requires order >= 2 && (Run(ops, order).Some? ==> Height(Run(ops, order).value) <= 1)
    ensures var root := Run(ops, order);
            && (root.Some? ==> Formed(root.value, Height(root.value)))
            && MinEntry(root) == First(Contents(root)) && MaxEntry(root) == Last(Contents(root))
  {
    RunIsSolid(ops, order);
    LowHasTrueExtremes(Run(ops, order), order);
  }

  lemma {:induction false} SolidEnds<V>(t: Tree<V>)
    requires Formed(t, Height(t)) && Height(t) <= 1 && Solid(t, Height(t))
    ensures var ls := Leaves(t); ls != [] && ls[0].keys != [] && ls[|ls| - 1].keys != []
  {
    if t.Inner? {
      FlatLeaves(t.children);
    }
  }

  lemma {:induction false} FlatLeaves<V>(ts: seq<Tree<V>>)
    requires forall i :: 0 <= i < |ts| ==> ts[i].Leaf?
    ensures AllLeaves(ts) == ts
  {
    if ts != [] {
      FlatLeaves(ts[1..]);
    }
  }
}
