/** Trees of three levels: which leaves can run empty, and when the look at one end of the tree finds nothing there. */
module BPlusEnds {
  import opened SortedEntries
  import opened BPlusModel
  import opened BPlusRuns
  import opened BPlusShape

  // ---- a leaf that has siblings is never empty

  /** No leaf below the node is empty, unless it is the only one. */
  ghost predicate Tidy<V>(c: Tree<V>) {
    c.Inner? && (|c.children| == 1 || forall j :: 0 <= j < |c.children| ==> |c.children[j].keys| > 0)
  }

  ghost predicate TidyIfThree<V>(root: Root<V>) {
    root.Some? && Height(root.value) == 2 ==> root.value.Inner? && forall i :: 0 <= i < |root.value.children| ==> Tidy(root.value.children[i])
  }

  lemma {:induction false} InsertTidy<V>(c: Tree<V>, key: int, value: V, order: int)
    requires order >= 2 && Formed(c, 1) && Tidy(c)
    ensures var r := InsertInto(c, 1, key, value, order); if r.Fits? then Tidy(r.tree) else Tidy(r.left) && Tidy(r.right)
  {
    var i := UpperBound(c.keys, key);
    LeafInsertHolds(c.children[i], key, value, order);
    var below := InsertInto(c.children[i], 0, key, value, order);
    if below.Splits? {
      HalvesHold(c, i, below.left, below.key, below.right);
    }
    hide Spliced, WithHalves;
  }

  lemma {:induction false} HalvesHold<V>(c: Tree<V>, i: nat, l: Tree<V>, s: int, r: Tree<V>)
    requires c.Inner? && |c.children| == |c.keys| + 1 && i < |c.children| && Tidy(c) && |l.keys| > 0 && |r.keys| > 0
    ensures var u := WithHalves(c, i, l, s, r); forall j :: 0 <= j < |u.children| ==> |u.children[j].keys| > 0
  {
    var u := WithHalves(c, i, l, s, r);
    forall j | 0 <= j < |u.children| ensures |u.children[j].keys| > 0 {
      assert j < i ==> u.children[j] == c.children[j];
      assert j > i + 1 ==> u.children[j] == c.children[j - 1];
    }
  }

  lemma {:induction false} DeleteTidy<V>(c: Tree<V>, key: int, minKeys: nat)
    requires minKeys >= 1 && Formed(c, 1) && Tidy(c)
    ensures var r := DeleteFrom(c, 1, key, false, minKeys); r.Some? ==> Tidy(r.value)
  {
    var i := UpperBound(c.keys, key);
    var r := DeleteFrom(c.children[i], 0, key, false, minKeys);
    if r.Some? && |c.children| > 1 {
      ReplaceFormed(c, 1, i, r.value);
      RebalancedLowSolid(Inner(c.keys, c.children[i := r.value]), i, minKeys);
    }
    hide Rebalance, UpperBound;
  }

  lemma {:induction false} InsertKeepsTidy<V>(root: Root<V>, key: int, value: V, order: int)
    requires order >= 2 && Good(root, order) && SolidIfLow(root) && TidyIfThree(root)
    ensures TidyIfThree(Insert(root, key, value, order))
  {
    if root.Some? {
      var t := root.value;
      GoodIsFormed(t, order);
      InsertKeepsSolid(root, key, value, order);
      var r := InsertInto(t, Height(t), key, value, order);
      var u := GrowRoot(r);
      if Height(u) == 2 {
        if Height(t) == 2 {
          InsertBelowTidy(t, key, value, order);
          TallerByOne(t, r, key, value, order);
        } else {
          GrownTidy(t, key, value, order);
        }
      }
    }
    hide Good, InsertInto;
  }

  /** The height after an insertion tells whether the root has split. */
  lemma {:induction false} TallerByOne<V>(t: Tree<V>, r: Insertion<V>, key: int, value: V, order: int)
    requires order >= 2 && Good(Some(t), order) && Formed(t, Height(t)) && r == InsertInto(t, Height(t), key, value, order)
    ensures Height(GrowRoot(r)) == if r.Fits? then Height(t) else Height(t) + 1
  {
    var lo, hi := BoundsFor(t, order, key);
    InsertIntoOk(t, Height(t), key, value, lo, hi, order);
    GrowRootOk(r, Height(t), lo, hi, order, Put(EntriesOf(t), key, value));
    hide Put, EntriesOf, InsertInto, Ok, InsertedOk;
  }

  lemma {:induction false} InsertBelowTidy<V>(t: Tree<V>, key: int, value: V, order: int)
    requires order >= 2 && Formed(t, 2) && t.Inner? && forall i :: 0 <= i < |t.children| ==> Tidy(t.children[i])
    ensures var r := InsertInto(t, 2, key, value, order);
            r.Fits? ==> r.tree.Inner? && forall i :: 0 <= i < |r.tree.children| ==> Tidy(r.tree.children[i])
  {
    var i := UpperBound(t.keys, key);
    InsertTidy(t.children[i], key, value, order);
    var below := InsertInto(t.children[i], 1, key, value, order);
    if below.Splits? {
      var u := WithHalves(t, i, below.left, below.key, below.right);
      forall j | 0 <= j < |u.children| ensures Tidy(u.children[j]) {
        assert j < i ==> u.children[j] == t.children[j];
        assert j > i + 1 ==> u.children[j] == t.children[j - 1];
      }
    }
    hide Tidy, Spliced;
  }

  /** A tree of two levels that grows a third splits its root, and no leaf below it is empty. */
  lemma {:induction false} GrownTidy<V>(t: Tree<V>, key: int, value: V, order: int)
    requires order >= 2 && Good(Some(t), order) && SolidIfLow(Some(t)) && Formed(t, Height(t)) && Height(t) != 2
    requires Height(GrowRoot(InsertInto(t, Height(t), key, value, order))) == 2
    ensures TidyIfThree(Some(GrowRoot(InsertInto(t, Height(t), key, value, order))))
  {
    var r := InsertInto(t, Height(t), key, value, order);
    TallerByOne(t, r, key, value, order);
    assert Height(t) == 1 && r.Splits?;
    InsertTidy(t, key, value, order);
    hide Good, Tidy, InsertInto;
    var u := GrowRoot(r);
    assert u.children == [r.left, r.right];
  }

  lemma {:induction false} AfterKeepsTidy<V>(root: Root<V>, op: Op<V>, order: int)
    requires order >= 2 && Good(root, order) && SolidIfLow(root) && TidyIfThree(root)
    ensures TidyIfThree(After(root, op, order))
  {
    match op
    case PutOp(k, v) => InsertKeepsTidy(root, k, v, order);
    case DelOp(k) =>
      DeleteNeverGrows(root, k, order);
      if root.Some? && Height(root.value) >= 2 {
        TallStaysTall(root, k, order);
        if Height(root.value) == 2 {
          EndDelete(root, k, order);
        }
      }
      hide Good, Tidy, Delete;
  }

  /** A deletion from a tree of three levels changes one child of the root. */
  lemma {:induction false} EndDelete<V>(root: Root<V>, key: int, order: int)
    requires order >= 2 && Good(root, order) && SolidIfLow(root) && TidyIfThree(root) && root.Some? && Height(root.value) == 2
    ensures var t, r := root.value, After(root, DelOp(key), order);
            && Formed(t, 2) && var i := UpperBound(t.keys, key);
               i < |t.children| && |t.children| > 1
               && var c := DeleteFrom(t.children[i], 1, key, false, order / 2);
                  && r == Some(if c.Some? then Inner(t.keys, t.children[i := c.value]) else t)
                  && (c.Some? ==> Tidy(c.value) && Formed(r.value, 2) && Height(r.value) == 2)
    ensures TidyIfThree(After(root, DelOp(key), order))
  {
    var t := root.value;
    GoodIsFormed(t, order);
    var i := UpperBound(t.keys, key);
    DeleteTidy(t.children[i], key, order / 2);
    var c := DeleteFrom(t.children[i], 1, key, false, order / 2);
    if c.Some? {
      assert !Underfull(c.value, 1);
      ReplaceFormed(t, 2, i, c.value);
      HeightIs(Inner(t.keys, t.children[i := c.value]), 2);
    }
    hide Good, Tidy;
  }

  // ---- a tree of one leaf

  lemma {:induction false} LeafTakes<V>(root: Root<V>, key: int, value: V, order: int)
    requires order >= 2 && Good(root, order) && (root.Some? ==> root.value.Leaf?) && |Contents(root)| + 1 < order
    ensures Insert(root, key, value, order).value.Leaf?
  {
    if root.Some? {
      GoodIsFormed(root.value, order);
    }
    hide Good;
  }

  // ---- looking from one end of the tree for an entry that is still wanted

  /** The outermost leaf, at the top or at the bottom, is empty. */
  ghost predicate HollowEnd<V>(root: Root<V>, top: bool) {
    root.Some? && var ls := Leaves(root.value); ls != [] && (if top then ls[|ls| - 1] else ls[0]).keys == []
  }

  /** Deleting these keys one after the other at some point leaves the outermost leaf empty. */
  ghost predicate GoesHollow<V>(root: Root<V>, keys: seq<int>, order: int, top: bool)
    requires order >= 2 && Good(root, order)
    decreases |keys|
  {
    HollowEnd(root, top) || (keys != [] && GoesHollow(After(root, DelOp(keys[0]), order), keys[1..], order, top))
  }

  /** What is left of the tree when the look stops: at the first key that is not among these, or at an empty leaf. */
  ghost function Looked<V>(root: Root<V>, keys: seq<int>, order: int, top: bool): (r: Root<V>)
    requires order >= 2 && Good(root, order)
    ensures Good(r, order)
    decreases |keys|
  {
    if keys == [] || HollowEnd(root, top) then root else Looked(After(root, DelOp(keys[0]), order), keys[1..], order, top)
  }

  /** The tree without these keys, deleted one after the other. */
  ghost function AfterAll<V>(root: Root<V>, keys: seq<int>, order: int): (r: Root<V>)
    requires order >= 2 && Good(root, order)
    ensures Good(r, order)
    decreases |keys|
  {
    if keys == [] then root else AfterAll(After(root, DelOp(keys[0]), order), keys[1..], order)
  }

  lemma {:induction false} AfterAllAppend<V>(root: Root<V>, keys: seq<int>, key: int, order: int)
    requires order >= 2 && Good(root, order)
    ensures AfterAll(root, keys + [key], order) == After(AfterAll(root, keys, order), DelOp(key), order)
    decreases |keys|
  {
    hide Good;
    if keys == [] {
      assert [key][1..] == [];
    } else {
      assert (keys + [key])[0] == keys[0] && (keys + [key])[1..] == keys[1..] + [key];
      AfterAllAppend(After(root, DelOp(keys[0]), order), keys[1..], key, order);
    }
  }

  ghost function EndChild<V>(t: Tree<V>, top: bool): Tree<V>
    requires t.Inner? && |t.children| > 0
  {
    if top then t.children[|t.children| - 1] else t.children[0]
  }

  /** The i-th key from that end. */
  ghost function EndKey<V>(es: Entries<V>, i: nat, top: bool): int
    requires i < |es|
  {
    if top then es[|es| - 1 - i].0 else es[i].0
  }

  /** These are the outermost keys, from that end inwards. */
  ghost predicate Outermost<V>(keys: seq<int>, es: Entries<V>, top: bool) {
    |keys| <= |es| && forall i :: 0 <= i < |keys| ==> keys[i] == EndKey(es, i, top)
  }

  /** A tree of one or two levels has no empty leaf to come to. */
  lemma {:induction false} LowNeverHollow<V>(root: Root<V>, keys: seq<int>, order: int, top: bool)
    requires order >= 2 && Good(root, order) && SolidIfLow(root) && (root.Some? ==> Height(root.value) <= 1)
    ensures !GoesHollow(root, keys, order, top)
    decreases |keys|
  {
    hide Good, SolidIfLow, After;
    LowEnds(root, order, top);
    if keys != [] {
      DeleteNeverGrows(root, keys[0], order);
      AfterKeepsSolid(root, DelOp(keys[0]), order);
      LowNeverHollow(After(root, DelOp(keys[0]), order), keys[1..], order, top);
    }
  }

  lemma {:induction false} LowEnds<V>(root: Root<V>, order: int, top: bool)
    requires order >= 2 && Good(root, order) && SolidIfLow(root) && (root.Some? ==> Height(root.value) <= 1)
    ensures !HollowEnd(root, top)
  {
    if root.Some? {
      GoodIsFormed(root.value, order);
      SolidEnds(root.value);
    }
    hide Good;
  }

  ghost predicate Three<V>(root: Root<V>, order: int) {
    order >= 2 && Good(root, order) && SolidIfLow(root) && TidyIfThree(root) && root.Some? && Height(root.value) == 2
  }

  lemma {:induction false} ThreeIs<V>(root: Root<V>, order: int)
    requires Three(root, order)
    ensures order >= 2 && Good(root, order) && SolidIfLow(root) && TidyIfThree(root) && root.Some? && Height(root.value) == 2
  {
  }

  lemma {:induction false} ThreeLevels<V>(root: Root<V>, order: int)
    requires Three(root, order)
    ensures var t := root.value;
            && Formed(t, 2) && t.Inner? && |t.children| == |t.keys| + 1 > 1
            && forall i :: 0 <= i < |t.children| ==> Tidy(t.children[i]) && Formed(t.children[i], 1)
  {
    GoodIsFormed(root.value, order);
    hide Good, Tidy;
  }

  lemma {:induction false} EndParts<V>(t: Tree<V>, top: bool)
    requires t.Inner? && |t.children| > 0
    ensures var n := |t.children| - 1; var c := EndChild(t, top);
            && EntriesOf(t) == (if top then Flat(t.children[..n]) + EntriesOf(c) else EntriesOf(c) + Flat(t.children[1..]))
            && Leaves(t) == (if top then AllLeaves(t.children[..n]) + Leaves(c) else Leaves(c) + AllLeaves(t.children[1..]))
  {
    if top {
      var n := |t.children| - 1;
      FlatChild(t, n);
      AllLeavesLast(t.children);
      assert t.children[n + 1..] == [];
    }
  }

  lemma {:induction false} AllLeavesLast<V>(ts: seq<Tree<V>>)
    requires ts != []
    ensures AllLeaves(ts) == AllLeaves(ts[..|ts| - 1]) + Leaves(ts[|ts| - 1])
  {
    if |ts| == 1 {
      assert ts[1..] == [] && ts[..0] == [];
    } else {
      AllLeavesLast(ts[1..]);
      assert ts[1..][..|ts| - 2] == ts[..|ts| - 1][1..];
    }
  }

  /** With no empty leaf beside another, the outermost leaf is empty only if nothing is left around it. */
  lemma {:induction false} HollowIfNothing<V>(root: Root<V>, order: int, top: bool)
    requires Three(root, order)
    ensures var t := root.value; t.Inner? && |t.children| > 0 && (HollowEnd(root, top) <==> EntriesOf(EndChild(t, top)) == [])
  {
    ThreeLevels(root, order);
    var t := root.value;
    EndParts(t, top);
    var c := EndChild(t, top);
    TidyEnds(c);
    hide Good, Leaves, AllLeaves, EntriesOf, Tidy;
  }

  lemma {:induction false} TidyEnds<V>(c: Tree<V>)
    requires Formed(c, 1) && Tidy(c)
    ensures var ls := Leaves(c); ls != [] && (ls[0].keys == [] <==> EntriesOf(c) == []) && (ls[|ls| - 1].keys == [] <==> EntriesOf(c) == [])
  {
    FlatLeaves(c.children);
    LeavesList(c, 1);
    var ls := c.children;
    assert Leaves(c) == ls && Flat(ls) == EntriesOf(c);
    assert Flat(ls) == EntriesOf(ls[0]) + Flat(ls[1..]);
    if |ls| == 1 {
      assert ls[1..] == [];
    }
  }

  lemma {:induction false} WithoutEnds<V>(es: Entries<V>, key: int, top: bool)
    requires Ascending(es) && es != [] && key == if top then es[|es| - 1].0 else es[0].0
    ensures Del(es, key) == (if top then es[..|es| - 1] else es[1..])
  {
    if top {
      var n := |es| - 1;
      assert es == es[..n] + [es[n]];
      DelBehindPrefix(es[..n], [es[n]], key);
      assert Del([es[n]], key) == [];
    }
  }

  /** The outermost key is below the outermost child, as long as anything is. */
  lemma {:induction false} EndRoute<V>(root: Root<V>, key: int, order: int, top: bool)
    requires Three(root, order)
    requires var es := Contents(root); es != [] && key == (if top then es[|es| - 1].0 else es[0].0)
    requires root.value.Inner? && |root.value.children| > 0 && EntriesOf(EndChild(root.value, top)) != []
    ensures var t := root.value; UpperBound(t.keys, key) == if top then |t.children| - 1 else 0
  {
    hide Good, EntriesOf, Flat, Tidy, Three, Height, UpperBound, Ordered, Leaves, AllLeaves;
    ThreeIs(root, order);
    ThreeLevels(root, order);
    var t := root.value;
    EndParts(t, top);
    var lo, hi := BoundsFor(t, order, key);
    var n := if top then |t.children| - 1 else 0;
    ChildWithin(t, lo, hi, order - 1, n);
    var es := EntriesOf(t.children[n]);
    assert key == (if top then es[|es| - 1].0 else es[0].0);
    UpperBoundAt(t.keys, key, lo, hi, n);
  }

  lemma {:induction false} ChildWithin<V>(t: Tree<V>, lo: int, hi: int, m: nat, n: nat)
    requires Ok(t, 2, lo, hi, m) && t.Inner? && n < |t.children|
    ensures n <= |t.keys| && StrictlySorted(t.keys) && KeysIn(EntriesOf(t.children[n]), LoAt(t.keys, n, lo), HiAt(t.keys, n, hi))
  {
    EntriesAscend(t.children[n], 1, LoAt(t.keys, n, lo), HiAt(t.keys, n, hi), m);
    hide EntriesOf;
  }

  lemma {:induction false} UpperBoundAt(keys: seq<int>, key: int, lo: int, hi: int, n: nat)
    requires StrictlySorted(keys) && n <= |keys| && LoAt(keys, n, lo) <= key < HiAt(keys, n, hi) && (n == 0 || n == |keys|)
    ensures UpperBound(keys, key) == n
  {
  }

  lemma {:induction false} HollowStep<V>(root: Root<V>, key: int, order: int, top: bool)
    requires Three(root, order)
    requires var es := Contents(root); es != [] && key == (if top then es[|es| - 1].0 else es[0].0)
    requires root.value.Inner? && |root.value.children| > 0 && EntriesOf(EndChild(root.value, top)) != []
    ensures var r := After(root, DelOp(key), order); var es := Contents(root);
            && Three(r, order) && r.value.Inner? && |r.value.children| > 0
            && Contents(r) == (if top then es[..|es| - 1] else es[1..])
            && |EntriesOf(EndChild(r.value, top))| == |EntriesOf(EndChild(root.value, top))| - 1
  {
    hide Good, Tidy, SolidIfLow, DeleteFrom, Height, EntriesOf, Find, Del, Leaves, AllLeaves, Formed, UpperBound,
      TidyIfThree, Delete;
    var t, r, es := root.value, After(root, DelOp(key), order), Contents(root);
    ThreeLevels(root, order);
    EndRoute(root, key, order, top);
    EndDelete(root, key, order);
    AfterKeepsSolid(root, DelOp(key), order);
    DeleteOk(root, key, order);
    GoodIsFormed(t, order);
    WithoutEnds(es, key, top);
    FindIsSome(es, if top then |es| - 1 else 0);
    ThreeIs(root, order);
    EndParts(t, top);
    EndParts(r.value, top);
    var i := UpperBound(t.keys, key);
    assert Three(r, order);
    assert Contents(r) == (if top then es[..|es| - 1] else es[1..]);
    assert r.value.children[..i] == t.children[..i] && r.value.children[i + 1..] == t.children[i + 1..];
  }

  lemma {:induction false} FindIsSome<V>(es: Entries<V>, i: nat)
    requires i < |es|
    ensures Find(es, es[i].0) != None
  {
    if i > 0 {
      FindIsSome(es[1..], i - 1);
    }
  }

  lemma {:induction false} OutermostStep<V>(keys: seq<int>, es: Entries<V>, top: bool)
    requires Outermost(keys, es, top) && keys != []
    ensures es != [] && keys[0] == (if top then es[|es| - 1].0 else es[0].0)
    ensures Outermost(keys[1..], if top then es[..|es| - 1] else es[1..], top)
  {
    var es' := if top then es[..|es| - 1] else es[1..];
    assert keys[0] == EndKey(es, 0, top);
    forall i | 0 <= i < |keys| - 1 ensures keys[1..][i] == EndKey(es', i, top) {
      assert keys[i + 1] == EndKey(es, i + 1, top);
    }
  }

  /** In a tree of three levels it comes to this exactly if the keys are all that is below the root's outermost child: the
      root asks its children for no more than one leaf, so nothing is moved in from their neighbours. */
  lemma {:induction false} GoesHollowIff<V>(root: Root<V>, keys: seq<int>, order: int, top: bool)
    requires Three(root, order) && Outermost(keys, Contents(root), top)
    ensures var t := root.value;
            t.Inner? && |t.children| > 0 && (GoesHollow(root, keys, order, top) <==> |EntriesOf(EndChild(t, top))| <= |keys|)
    decreases |keys|
  {
    hide Good, Tidy, Three, EntriesOf, After;
    ThreeIs(root, order);
    ThreeLevels(root, order);
    HollowIfNothing(root, order, top);
    if EntriesOf(EndChild(root.value, top)) != [] && keys != [] {
      var es := Contents(root);
      OutermostStep(keys, es, top);
      HollowStep(root, keys[0], order, top);
      var r := After(root, DelOp(keys[0]), order);
      GoesHollowIff(r, keys[1..], order, top);
    }
  }

  /** A deletion brings no key in under the root's outermost child. */
  lemma {:induction false} NothingMovesIn<V>(root: Root<V>, key: int, order: int, top: bool)
    requires Three(root, order)
    ensures var t, r := root.value, After(root, DelOp(key), order);
            && Three(r, order) && t.Inner? && |t.children| > 0 && r.value.Inner? && |r.value.children| > 0
            && forall e :: e in EntriesOf(EndChild(r.value, top)) ==> e in EntriesOf(EndChild(t, top))
  {
    hide Good, Tidy, SolidIfLow, DeleteFrom, Height, EntriesOf, Find, Del, Leaves, AllLeaves, Formed, UpperBound,
      TidyIfThree, Delete;
    ThreeIs(root, order);
    ThreeLevels(root, order);
    EndDelete(root, key, order);
    AfterKeepsSolid(root, DelOp(key), order);
    DeleteOk(root, key, order);
    var t := root.value;
    var lo, hi := BoundsFor(t, order, key);
    var i := UpperBound(t.keys, key);
    ChildHoldsKey(t, 2, lo, hi, order - 1, key, i);
    DeleteFromOk(t.children[i], 1, key, LoAt(t.keys, i, lo), HiAt(t.keys, i, hi), false, order);
    DelIsSublist(EntriesOf(t.children[i]), key);
  }

  lemma {:induction false} NothingMovesInAll<V>(root: Root<V>, keys: seq<int>, order: int, top: bool)
    requires Three(root, order)
    ensures var t, r := root.value, AfterAll(root, keys, order);
            && Three(r, order) && t.Inner? && |t.children| > 0 && r.value.Inner? && |r.value.children| > 0
            && forall e :: e in EntriesOf(EndChild(r.value, top)) ==> e in EntriesOf(EndChild(t, top))
    decreases |keys|
  {
    hide Good, Three, EntriesOf, After;
    ThreeIs(root, order);
    if keys == [] {
      ThreeLevels(root, order);
    } else {
      NothingMovesIn(root, keys[0], order, top);
      NothingMovesInAll(After(root, DelOp(keys[0]), order), keys[1..], order, top);
    }
  }
}
