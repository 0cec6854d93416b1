/** An index of two leaves, where a walk upwards can serve the last level of the first leaf twice, and one downwards can pass it
    over. */
module TwoLeaves {
  import opened SortedEntries
  import opened ReferenceBook
  import opened BPlusModel
  import opened BPlusRuns
  import opened BPlusShape
  import opened BPlusEnds
  import opened BPlusRepair
  import opened Walks

  /** The leaves below the root hold these keys. */
  ghost predicate Pair<V>(root: Root<V>, order: int, a: seq<int>, b: seq<int>) {
    order >= 2 && Good(root, order) && root.Some? && Height(root.value) <= 1 && KeysOf(root) == [a, b]
  }

  lemma {:induction false} PairIs<V>(root: Root<V>, order: int, a: seq<int>, b: seq<int>)
    requires Pair(root, order, a, b)
    ensures var t := root.value;
            && Formed(t, 1) && Height(t) == 1 && t.Inner? && |t.children| == 2 && |t.keys| == 1 && AllLeaf(t.children)
            && t.children[0].keys == a && t.children[1].keys == b
  {
    var t := root.value;
    GoodIsFormed(t, order);
    OneRow(t);
    FormedHeight(t, Height(t));
    ChildLeaves(t);
    KeysOfFlat(t.children);
    NodeKeys(t);
    hide Good;
  }

  lemma {:induction false} OneRow<V>(t: Tree<V>)
    ensures t.Leaf? ==> |LeafKeys(t)| == 1
  {
  }

  /** The leaf children of a root are only repaired when they run empty. */
  lemma {:induction false} PairFix<V>(root: Root<V>, order: int, a: seq<int>, b: seq<int>, k: nat)
    requires Pair(root, order, a, b) && k < |b| && PlaceOf(root, b[k], order) == 1 && LowerBound(b, b[k]) == k
    ensures |b| > 1 ==> FixOf(root, b[k], order) == Nothing
    ensures |b| == 1 && |a| > order / 2 ==> FixOf(root, b[k], order) == FromLeft
  {
    PairIs(root, order, a, b);
    var t, key := root.value, b[k];
    FixStep(t, 1, key, true, order / 2);
    var i := UpperBound(t.keys, key);
    KeysOfFlat(t.children[..i]);
    LeafDeleted(t.children[i], key, false, order / 2);
    hide Good;
  }

  /** Dropping a key of the second leaf; the last one is replaced by the last key of the first leaf. */
  lemma {:induction false} PairDrop<V>(root: Root<V>, order: int, a: seq<int>, b: seq<int>, k: nat)
    requires Pair(root, order, a, b) && k < |b|
    ensures var r := After(root, DelOp(b[k]), order);
            && (|b| > 1 ==> FixOf(root, b[k], order) == Nothing && Pair(r, order, a, Without(b, k)))
            && (|b| == 1 && |a| > order / 2 ==>
                  FixOf(root, b[k], order) == FromLeft && Pair(r, order, a[..|a| - 1], [a[|a| - 1]]))
  {
    hide Good, KeysOf, Strung, Height, PlaceOf, FixOf, After, LowerBound, Without;
    KeyGoes(root, order, 1, k);
    PairFix(root, order, a, b, k);
    DeleteNeverGrows(root, b[k], order);
    StrungTwo(a, b);
    var ks := [a, b];
    if |b| > 1 {
      assert ks[..1] == [a] && ks[2..] == [];
    } else if |a| > order / 2 {
      NoneLeft(b, k);
      var m := |a| - 1;
      assert ks[..0] == [] && ks[2..] == [] && [a[m]] + Without(b, k) == [a[m]];
    }
  }

  lemma {:induction false} NoneLeft(b: seq<int>, k: nat)
    requires |b| == 1 && k < |b|
    ensures Without(b, k) == []
  {
  }

  /** All of these keys of the second leaf go, but not all it has. */
  lemma {:induction false} PairDropAll<V>(root: Root<V>, order: int, a: seq<int>, b: seq<int>, keys: seq<int>, kept: int) returns (b': seq<int>)
    requires Pair(root, order, a, b) && NoDup(keys) && (forall key :: key in keys ==> key in b) && kept in b && kept !in keys
    ensures Pair(AfterAll(root, keys, order), order, a, b') && forall x :: x in b' <==> x in b && x !in keys
    decreases |keys|
  {
    hide Good, KeysOf, Strung, Height, After;
    b' := b;
    if keys != [] {
      assert keys[0] in keys;
      var k :| 0 <= k < |b| && b[k] == keys[0];
      PairSorted(root, order, a, b);
      OneLess(b, k, kept);
      PairDrop(root, order, a, b, k);
      TailOf(keys);
      b' := PairDropAll(After(root, DelOp(b[k]), order), order, a, Without(b, k), keys[1..], kept);
    }
  }

  lemma {:induction false} PairSorted<V>(root: Root<V>, order: int, a: seq<int>, b: seq<int>)
    requires Pair(root, order, a, b)
    ensures StrictlySorted(a) && StrictlySorted(b) && AllKeys(root) == a + b && StrictlySorted(a + b)
  {
    hide Good, KeysOf, Strung;
    KeysAscend(root, order);
    StrungTwo(a, b);
    RowSorted(KeysOf(root), 0);
    RowSorted(KeysOf(root), 1);
  }

  lemma {:induction false} OneLess(b: seq<int>, k: nat, kept: int)
    requires StrictlySorted(b) && k < |b| && kept in b && kept != b[k]
    ensures |b| > 1 && forall x :: x in Without(b, k) <==> x in b && x != b[k]
  {
    var d := Without(b, k);
    var j :| 0 <= j < |b| && b[j] == kept;
    forall x | x in b && x != b[k] ensures x in d {
      var i :| 0 <= i < |b| && b[i] == x;
      assert d[if i < k then i else i - 1] == x;
    }
    forall x | x in d ensures x in b && x != b[k] {
      var i :| 0 <= i < |d| && d[i] == x;
      assert d[i] == b[if i < k then i else i + 1];
    }
  }

  lemma {:induction false} TailOf(keys: seq<int>)
    requires NoDup(keys) && keys != []
    ensures NoDup(keys[1..]) && keys[0] !in keys[1..] && forall x :: x in keys <==> x == keys[0] || x in keys[1..]
  {
  }

  // ---- how it grows

  ghost predicate Single<V>(root: Root<V>, order: int, a: seq<int>) {
    order >= 2 && Good(root, order) && root.Some? && root.value.Leaf? && root.value.keys == a
  }

  lemma {:induction false} SingleKeys<V>(root: Root<V>, order: int, a: seq<int>)
    requires Single(root, order, a)
    ensures KeysOf(root) == [a] && AllKeys(root) == a && StrictlySorted(a)
  {
    KeysAscend(root, order);
    StrungOne(a);
    hide Good;
  }

  /** The first key makes a leaf. */
  lemma {:induction false} LeafBegins<V>(key: int, value: V, order: int)
    requires order >= 2
    ensures Single(Insert(None, key, value, order), order, [key])
  {
    InsertOk(None, key, value, order);
    hide Good;
  }

  lemma {:induction false} LastPlace(a: seq<int>, key: int)
    requires forall i :: 0 <= i < |a| ==> a[i] < key
    ensures LowerBound(a, key) == |a|
  {
  }

  /** A key above all others goes to the end of the leaf, which is split in the middle when it has too many. */
  lemma {:induction false} LeafTakesLast<V>(root: Root<V>, order: int, a: seq<int>, key: int, value: V)
    requires Single(root, order, a) && forall i :: 0 <= i < |a| ==> a[i] < key
    ensures var r, ks, m := Insert(root, key, value, order), a + [key], (|a| + 2) / 2;
            if |ks| < order then Single(r, order, ks) else m < |ks| && Pair(r, order, ks[..m], ks[m..])
  {
    InsertOk(root, key, value, order);
    GoodIsFormed(root.value, order);
    LastPlace(a, key);
    var t := root.value;
    assert Spliced(a, |a|, key) == a + [key];
    if |a| + 1 >= order {
      SplitIsPair(a + [key], Spliced(t.values, |a|, value), order);
    }
    hide Good, LowerBound;
  }

  lemma {:induction false} SplitIsPair<V>(keys: seq<int>, values: seq<V>, order: int)
    requires order >= 2 && |keys| == |values| >= 2
    ensures var m, t := (|keys| + 1) / 2, GrowRoot(SplitLeaf(keys, values));
            m < |keys| && Height(t) == 1 && KeysOf(Some(t)) == [keys[..m], keys[m..]]
  {
    var m := (|keys| + 1) / 2;
    var l, r := Leaf(keys[..m], values[..m]), Leaf(keys[m..], values[m..]);
    KeysOfFlat([l, r]);
    NodeKeys(Inner([keys[m]], [l, r]));
  }

  /** A key below all others goes to the front of the first leaf, as long as that has room. */
  lemma {:induction false} PairTakesFirst<V>(root: Root<V>, order: int, a: seq<int>, b: seq<int>, key: int, value: V)
    requires Pair(root, order, a, b) && a != [] && key < a[0] && |a| + 1 < order
    ensures Pair(Insert(root, key, value, order), order, [key] + a, b)
  {
    InsertOk(root, key, value, order);
    PairIs(root, order, a, b);
    var t := root.value;
    SeparatorAbove(root, order, a, b);
    assert UpperBound(t.keys, key) == 0 && LowerBound(a, key) == 0;
    var c := t.children[0];
    var d := Leaf([key] + c.keys, [value] + c.values);
    assert Spliced(c.keys, 0, key) == [key] + c.keys && Spliced(c.values, 0, value) == [value] + c.values;
    assert InsertInto(t, 1, key, value, order) == Fits(Inner(t.keys, t.children[0 := d]));
    var u := Inner(t.keys, t.children[0 := d]);
    KeysOfFlat(u.children);
    NodeKeys(u);
    assert AllLeafKeys(u.children) == [[key] + a, b];
    ReplaceFormed(t, 1, 0, d);
    HeightIs(u, 1);
    hide Good, LeafKeys, AllLeafKeys, InsertInto, UpperBound, LowerBound;
  }

  lemma {:induction false} SeparatorAbove<V>(root: Root<V>, order: int, a: seq<int>, b: seq<int>)
    requires Pair(root, order, a, b) && a != []
    ensures root.value.Inner? && |root.value.keys| == 1 && a[0] < root.value.keys[0]
  {
    PairIs(root, order, a, b);
    var t := root.value;
    var lo, hi := BoundsFor(t, order, 0);
    var c := t.children[0];
    EntriesAscend(c, 0, LoAt(t.keys, 0, lo), HiAt(t.keys, 0, hi), order - 1);
    assert |EntriesOf(c)| == |c.keys| && EntriesOf(c)[0].0 == c.keys[0];
    assert HiAt(t.keys, 0, hi) == t.keys[0];
    hide Good;
  }

  // ---- a walk upwards

  lemma {:induction false} NothingMore(q: seq<Maker>, limit: int)
    ensures Fills(Buy, Some(limit), q, 0) == [] && FilledQty([]) == 0
  {
  }

  /** A leaf without empty levels is served in turn, and what is left is looked for in the next. */
  lemma {:induction false} WalkRow<V>(root: Root<V>, order: int, q: seq<Maker>, n: nat, a: seq<int>, k: nat, limit: int, qty: int)
    requires order >= 2 && Good(root, order) && n < |KeysOf(root)| && KeysOf(root)[n] == a && Positive(q) && qty >= 0 && k <= |a|
    requires forall i :: 0 <= i < |a| ==> At(q, a[i]) != [] && a[i] <= limit
    ensures var fs := Fills(Buy, Some(limit), Waiting(q, a[k..]), qty); var left := qty - FilledQty(fs);
            && left >= 0
            && var c := WalkUp(root, order, q, false, n + 1, 0, limit, left);
               WalkUp(root, order, q, false, n, k, limit, qty) == c.(fills := fs + c.fills)
    decreases |a| - k
  {
    hide Good, Fills, FilledQty, Waiting, At, DropUp, KeysOf;
    var c := WalkUp(root, order, q, false, n, k, limit, qty);
    if qty == 0 {
      NothingMore(Waiting(q, a[k..]), limit);
    } else if k == |a| {
      NothingWaits(q, a[k..], Buy, limit, qty);
      NothingMore([], limit);
    } else {
      AheadOf(q, a, k);
      Visited(Buy, q, a[k], Waiting(q, a[k + 1..]), limit, qty);
      var fs := Fills(Buy, Some(limit), At(q, a[k]), qty);
      WalkRow(root, order, q, n, a, k + 1, limit, qty - FilledQty(fs));
      var rest := Fills(Buy, Some(limit), Waiting(q, a[k + 1..]), qty - FilledQty(fs));
      FilledJoin(fs, rest);
      Assoc(fs, rest, WalkUp(root, order, q, false, n + 1, 0, limit, qty - FilledQty(fs) - FilledQty(rest)).fills);
    }
  }

  lemma {:induction false} FilledJoin(a: seq<MatchResult>, b: seq<MatchResult>)
    ensures FilledQty(a + b) == FilledQty(a) + FilledQty(b)
  {
    if a == [] {
      assert a + b == b;
    } else {
      assert (a + b)[0] == a[0] && (a + b)[1..] == a[1..] + b;
      FilledJoin(a[1..], b);
    }
  }

  /** In the second leaf all levels are empty: they go one by one, and the last of them brings the last key of the first leaf
      under the walk. */
  lemma {:induction false} WalkSecond<V>(root: Root<V>, order: int, q: seq<Maker>, a: seq<int>, b: seq<int>, limit: int, qty: int)
    requires Pair(root, order, a, b) && Positive(q) && qty > 0 && |a| > order / 2 && b != []
    requires forall i :: 0 <= i < |b| ==> At(q, b[i]) == []
    requires At(q, a[|a| - 1]) != [] && a[|a| - 1] <= limit
    ensures WalkUp(root, order, q, false, 1, 0, limit, qty) == Course(Fills(Buy, Some(limit), At(q, a[|a| - 1]), qty), true, false)
    decreases |b|
  {
    hide Good, Fills, FilledQty, At, KeysOf, After, FixOf;
    PairDrop(root, order, a, b, 0);
    KeyGoes(root, order, 1, 0);
    var r := After(root, DelOp(b[0]), order);
    if |b| > 1 {
      assert Without(b, 0) == b[1..];
      WalkSecond(r, order, q, a, b[1..], limit, qty);
    } else {
      LastAgain(r, order, q, a[..|a| - 1], a[|a| - 1], limit, qty);
    }
  }

  lemma {:induction false} LastAgain<V>(root: Root<V>, order: int, q: seq<Maker>, a: seq<int>, key: int, limit: int, qty: int)
    requires Pair(root, order, a, [key]) && Positive(q) && qty > 0 && At(q, key) != [] && key <= limit
    ensures WalkUp(root, order, q, false, 1, 0, limit, qty) == Course(Fills(Buy, Some(limit), At(q, key), qty), true, true)
  {
    hide Good, Fills, FilledQty, At, KeysOf, DropUp;
    var fs := Fills(Buy, Some(limit), At(q, key), qty);
    var left := qty - FilledQty(fs);
    assert WalkUp(root, order, q, false, 2, 0, limit, left) == Course([], true, true);
    assert WalkUp(root, order, q, false, 1, 1, limit, left) == Course([], true, true);
  }

  /** A buyer who wants more than the first leaf has is served its last level twice, whenever the first leaf has more than
      order / 2 levels, none of them empty, and all levels of the second leaf are. */
  lemma {:induction false} ServedTwice<V>(root: Root<V>, order: int, q: seq<Maker>, a: seq<int>, b: seq<int>, limit: int, qty: int)
    requires Pair(root, order, a, b) && Positive(q) && qty >= 0 && |a| > order / 2 && b != []
    requires forall i :: 0 <= i < |a| ==> At(q, a[i]) != [] && a[i] <= limit
    requires forall i :: 0 <= i < |b| ==> At(q, b[i]) == []
    ensures var fs := Fills(Buy, Some(limit), Waiting(q, a), qty);
            var left := qty - FilledQty(fs);
            && left >= 0
            && CourseOf(Buy, root, order, q, limit, qty)
               == Course(fs + Fills(Buy, Some(limit), At(q, a[|a| - 1]), left), true, left == 0)
  {
    hide Good, Fills, FilledQty, At, KeysOf, DropUp, Waiting, WalkUp;
    WalkRow(root, order, q, 0, a, 0, limit, qty);
    assert a[0..] == a;
    var left := qty - FilledQty(Fills(Buy, Some(limit), Waiting(q, a), qty));
    if left > 0 {
      WalkSecond(root, order, q, a, b, limit, left);
    } else {
      NothingMore(At(q, a[|a| - 1]), limit);
      NothingWalked(root, order, q, 1, limit);
    }
  }

  lemma {:induction false} NothingWalked<V>(root: Root<V>, order: int, q: seq<Maker>, n: nat, limit: int)
    requires order >= 2 && Good(root, order)
    ensures WalkUp(root, order, q, false, n, 0, limit, 0) == Course([], true, true)
  {
  }

  // ---- a walk downwards

  /** A first leaf without empty levels is served in turn. */
  lemma {:induction false} WalkRowDown<V>(root: Root<V>, order: int, q: seq<Maker>, a: seq<int>, k: nat, limit: int, qty: int)
    requires order >= 2 && Good(root, order) && KeysOf(root) != [] && KeysOf(root)[0] == a && Positive(q) && qty >= 0 && k <= |a|
    requires forall i :: 0 <= i < |a| ==> At(q, a[i]) != [] && a[i] >= limit
    ensures WalkDown(root, order, q, 1, k, limit, qty) == Course(Fills(Sell, Some(limit), WaitingDown(q, a[..k]), qty), true, true)
    decreases k
  {
    hide Good, Fills, FilledQty, WaitingDown, At, DropDown, KeysOf;
    if qty == 0 {
      NothingWanted(Sell, limit, WaitingDown(q, a[..k]));
    } else if k == 0 {
      NothingBelow(q, a[..k], limit, qty);
      assert WalkDown(root, order, q, 0, 0, limit, qty) == Course([], true, true);
    } else {
      AheadBelow(q, a, k);
      Visited(Sell, q, a[k - 1], WaitingDown(q, a[..k - 1]), limit, qty);
      var fs := Fills(Sell, Some(limit), At(q, a[k - 1]), qty);
      WalkRowDown(root, order, q, a, k - 1, limit, qty - FilledQty(fs));
    }
  }

  /** The levels of the second leaf are dropped one by one; the last of them brings the last key of the first leaf to the place
      the walk is about to leave. */
  lemma {:induction false} WalkSecondDown<V>(root: Root<V>, order: int, q: seq<Maker>, a: seq<int>, b: seq<int>, limit: int, qty: int)
    requires Pair(root, order, a, b) && Positive(q) && qty > 0 && |a| > order / 2 && b != []
    requires forall i :: 0 <= i < |a| ==> At(q, a[i]) != [] && a[i] >= limit
    requires forall i :: 0 <= i < |b| ==> At(q, b[i]) == []
    ensures WalkDown(root, order, q, 2, |b|, limit, qty)
            == Course(Fills(Sell, Some(limit), WaitingDown(q, a[..|a| - 1]), qty), true, false)
    decreases |b|
  {
    hide Good, Fills, At, KeysOf, After, FixOf, Without, Strung, Pos;
    var k := |b| - 1;
    PairDrop(root, order, a, b, k);
    KeyGoes(root, order, 1, k);
    var r := After(root, DelOp(b[k]), order);
    if |b| > 1 {
      DropsLast(b);
      WalkSecondDown(r, order, q, a, b[..k], limit, qty);
    } else {
      var m := |a| - 1;
      LastOfFirst(a, b);
      WalkRowDown(r, order, q, a[..m], m, limit, qty);
      assert a[..m][..m] == a[..m];
      assert !Passable(q, KeysOf(root), 2, 1, limit);
      assert WalkDown(r, order, q, 2, 0, limit, qty) == WalkDown(r, order, q, 1, m, limit, qty);
    }
  }

  lemma {:induction false} DropsLast(b: seq<int>)
    requires b != []
    ensures Without(b, |b| - 1) == b[..|b| - 1]
  {
  }

  lemma {:induction false} LastOfFirst(a: seq<int>, b: seq<int>)
    requires a != []
    ensures Pos([a, b], 1, 0) == |a| && |Strung([a, b])| == |a| + |b| && Strung([a, b])[|a| - 1] == a[|a| - 1]
  {
    StrungTwo(a, b);
    PosNext([a, b], 0);
  }

  /** A seller passes the best bids over, whenever the first leaf has more than order / 2 levels, none of them empty, and all
      levels of the second leaf are. */
  lemma {:induction false} PassedOver<V>(root: Root<V>, order: int, q: seq<Maker>, a: seq<int>, b: seq<int>, limit: int, qty: int)
    requires Pair(root, order, a, b) && Positive(q) && qty > 0 && |a| > order / 2 && b != []
    requires forall i :: 0 <= i < |a| ==> At(q, a[i]) != [] && a[i] >= limit
    requires forall i :: 0 <= i < |b| ==> At(q, b[i]) == []
    ensures CourseOf(Sell, root, order, q, limit, qty)
            == Course(Fills(Sell, Some(limit), WaitingDown(q, a[..|a| - 1]), qty), true, false)
  {
    WalkSecondDown(root, order, q, a, b, limit, qty);
    hide Good, Fills, At, KeysOf, WalkDown;
  }
}
