/** A walk upwards that never comes to an end: it meets an empty level on a leaf that has been merged away. */
module NeverEnds {
  import opened SortedEntries
  import opened ReferenceBook
  import opened BPlusModel
  import opened BPlusRuns
  import opened BPlusRepair
  import opened BPlusOccupancy
  import opened Walks
  import opened TwoLeaves

  /** Dropping the level at position k of leaf n merges the leaf into its left neighbour; if the next level there is empty too,
      the walk is lost. */
  lemma {:induction false} Stuck<V>(root: Root<V>, order: int, q: seq<Maker>, n: nat, k: nat, limit: int, qty: int)
    requires order >= 2 && Good(root, order) && n < |KeysOf(root)| && k + 1 < |KeysOf(root)[n]| && qty > 0
    requires At(q, KeysOf(root)[n][k]) == [] && At(q, KeysOf(root)[n][k + 1]) == [] && FixOf(root, KeysOf(root)[n][k], order) == IntoLeft
    ensures !WalkUp(root, order, q, false, n, k, limit, qty).ends
  {
    hide Good, KeysOf, At, FixOf, After;
    KeyGoes(root, order, n, k);
    var ks := KeysOf(root);
    var r := After(root, DelOp(ks[n][k]), order);
    if r.None? {
      RowCounts(ks, n);
    } else {
      assert KeysOf(r)[n - 1] == ks[n - 1] + Without(ks[n], k);
      assert KeysOf(r)[n - 1][|ks[n - 1]| + k] == ks[n][k + 1];
      LostAt(r, order, q, n - 1, |ks[n - 1]| + k, limit, qty);
    }
  }

  lemma {:induction false} RowCounts(ks: seq<seq<int>>, n: nat)
    requires n < |ks|
    ensures |Strung(ks)| >= |ks[n]|
  {
    if n > 0 {
      RowCounts(ks[1..], n - 1);
    }
  }

  lemma {:induction false} LostAt<V>(root: Root<V>, order: int, q: seq<Maker>, n: nat, k: nat, limit: int, qty: int)
    requires order >= 2 && Good(root, order) && n < |KeysOf(root)| && k < |KeysOf(root)[n]| && qty > 0 && At(q, KeysOf(root)[n][k]) == []
    ensures !WalkUp(root, order, q, true, n, k, limit, qty).ends
  {
    hide Good, KeysOf, At;
  }

  // ---- when a leaf is merged into its left neighbour

  /** A leaf with just what is required of it, not the first below its parent and with no neighbour there that has more. */
  lemma {:induction false} MergesLeft<V>(c: Tree<V>, key: int, minKeys: nat)
    requires minKeys >= 1 && Formed(c, 1) && c.Inner?
    requires var j := UpperBound(c.keys, key);
             && 0 < j < |c.children| && key in c.children[j].keys && |c.children[j].keys| == minKeys && StrictlySorted(c.children[j].keys)
             && |c.children[j - 1].keys| <= minKeys && (j + 1 < |c.children| ==> |c.children[j + 1].keys| <= minKeys)
    ensures Fix(c, 1, key, false, minKeys) == IntoLeft
  {
    var j := UpperBound(c.keys, key);
    FixStep(c, 1, key, false, minKeys);
    LeafDeleted(c.children[j], key, false, minKeys);
    InLeaf(c.children[j].keys, key);
    hide UpperBound, LowerBound;
  }

  lemma {:induction false} InLeaf(keys: seq<int>, key: int)
    requires key in keys && StrictlySorted(keys)
    ensures LowerBound(keys, key) < |keys| && keys[LowerBound(keys, key)] == key
  {
    var i :| 0 <= i < |keys| && keys[i] == key;
  }

  /** The leaves below the first child of the root come first. */
  lemma {:induction false} FirstChild<V>(root: Root<V>, order: int)
    requires order >= 6 && Good(root, order) && HalfFull(root, order) && root.Some? && Height(root.value) == 2
    ensures var t := root.value;
            && Formed(t, 2) && t.Inner? && |t.children| > 0
            && var c, ks := t.children[0], KeysOf(root);
               && Formed(c, 1) && c.Inner? && 3 <= |c.children| <= |ks| && LeafKeys(c) == ks[..|c.children|]
               && forall i :: 0 <= i < |c.children| ==> ks[i] == c.children[i].keys
  {
    var t := root.value;
    GoodIsFormed(t, order);
    var c := t.children[0];
    ChildLeaves(c);
    KeysOfFlat(c.children);
    NodeKeys(c);
    NodeKeys(t);
    assert t.children == [c] + t.children[1..];
    hide Good, KidsFull;
  }

  lemma {:induction false} FirstRows<V>(ts: seq<Tree<V>>, i: nat)
    requires 0 < i <= |ts|
    ensures |AllLeafKeys(ts[..i])| >= |LeafKeys(ts[0])|
  {
    assert ts[..i][0] == ts[0];
  }

  /** The second leaf goes so when it and those beside it have half an order of keys each. */
  lemma {:induction false} SecondMerges<V>(root: Root<V>, order: int, k: nat)
    requires order >= 6 && Good(root, order) && HalfFull(root, order) && root.Some? && Height(root.value) == 2
    requires var ks := KeysOf(root); |ks| > 2 && |ks[0]| == |ks[1]| == |ks[2]| == order / 2 && k < |ks[1]|
    ensures FixOf(root, KeysOf(root)[1][k], order) == IntoLeft
  {
    hide Good, HalfFull, KeysOf, LeafKeys, AllLeafKeys, UpperBound, LowerBound, Formed;
    FirstChild(root, order);
    KeyGoes(root, order, 1, k);
    var t, ks, m := root.value, KeysOf(root), order / 2;
    var key := ks[1][k];
    HeightIs(t, 2);
    FixStep(t, 2, key, true, m);
    var i := UpperBound(t.keys, key);
    if i > 0 {
      FirstRows(t.children, i);
      assert false;
    }
    var c := t.children[0];
    NoRowsBefore(t);
    FixStep(c, 1, key, false, m);
    var j := UpperBound(c.keys, key);
    ChildLeaves(c);
    KeysOfFlat(c.children[..j]);
    assert j == 1;
    RowSorted(ks, 1);
    MergesLeft(c, key, m);
  }

  lemma {:induction false} NoRowsBefore<V>(t: Tree<V>)
    requires t.Inner?
    ensures AllLeafKeys(t.children[..0]) == []
  {
  }

  /** A buyer who has served the first leaf and wants more comes to the second, whose first two levels are empty. */
  lemma {:induction false} LostInSecond<V>(root: Root<V>, order: int, q: seq<Maker>, limit: int, qty: int)
    requires order >= 6 && Good(root, order) && HalfFull(root, order) && root.Some? && Height(root.value) == 2
    requires var ks := KeysOf(root);
             && |ks| > 2 && |ks[0]| == |ks[1]| == |ks[2]| == order / 2
             && (forall i :: 0 <= i < |ks[0]| ==> At(q, ks[0][i]) != [] && ks[0][i] <= limit)
             && At(q, ks[1][0]) == [] && At(q, ks[1][1]) == []
             && Positive(q) && qty >= 0 && FilledQty(Fills(Buy, Some(limit), Waiting(q, ks[0]), qty)) < qty
    ensures !CourseOf(Buy, root, order, q, limit, qty).ends
  {
    hide Good, HalfFull, KeysOf, At, Waiting, Fills, FilledQty, FixOf, WalkUp;
    var ks := KeysOf(root);
    WalkRow(root, order, q, 0, ks[0], 0, limit, qty);
    assert ks[0][0..] == ks[0];
    SecondMerges(root, order, 0);
    Stuck(root, order, q, 1, 0, limit, qty - FilledQty(Fills(Buy, Some(limit), Waiting(q, ks[0]), qty)));
  }
}
