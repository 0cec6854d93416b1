/** The leaves of a tree to which keys are added in ascending order. */
module AscendingRows {
  import opened SortedEntries
  import opened BPlusModel
  import opened BPlusRuns
  import opened BPlusRepair

  // ---- a key above all others

  /** The last leaf takes it, and is cut in two when it has too many keys. */
  ghost function Grow(ks: seq<seq<int>>, key: int, order: int): seq<seq<int>> {
    if ks == [] then [[key]] else ks[..|ks| - 1] + Halves(ks[|ks| - 1] + [key], order)
  }

  ghost function Halves(row: seq<int>, order: int): seq<seq<int>> {
    if |row| < order then [row] else var m := (|row| + 1) / 2; [row[..m], row[m..]]
  }

  ghost predicate Filled(ks: seq<seq<int>>) {
    forall i :: 0 <= i < |ks| ==> ks[i] != []
  }

  lemma {:induction false} GrowBehind(a: seq<seq<int>>, b: seq<seq<int>>, key: int, order: int)
    requires b != []
    ensures Grow(a + b, key, order) == a + Grow(b, key, order)
  {
    assert (a + b)[..|a + b| - 1] == a + b[..|b| - 1];
    hide Halves;
  }

  lemma {:induction false} GrowFilled(ks: seq<seq<int>>, key: int, order: int)
    requires order >= 2 && Filled(ks)
    ensures Filled(Grow(ks, key, order))
  {
  }

  /** The leaves an insertion leaves behind. */
  ghost function RowsOf<V>(r: Insertion<V>): seq<seq<int>> {
    match r
    case Fits(t) => LeafKeys(t)
    case Splits(l, _, r) => LeafKeys(l) + LeafKeys(r)
  }

  lemma {:induction false} LeafGrows<V>(t: Tree<V>, key: int, value: V, order: int)
    requires order >= 2 && t.Leaf? && Formed(t, 0) && forall i :: 0 <= i < |t.keys| ==> t.keys[i] < key
    ensures RowsOf(InsertInto(t, 0, key, value, order)) == Grow(LeafKeys(t), key, order)
  {
    assert LowerBound(t.keys, key) == |t.keys|;
    assert Spliced(t.keys, |t.keys|, key) == t.keys + [key];
    assert LeafKeys(t)[..0] == [];
  }

  lemma {:induction false} LowEdge<V>(c: Tree<V>, h: nat, lo: int, hi: int, m: nat, key: int)
    requires Ok(c, h, lo, hi, m) && EntriesOf(c) != [] && EntriesOf(c)[0].0 < key
    ensures lo < key
  {
    EntriesAscend(c, h, lo, hi, m);
    hide EntriesOf;
  }

  /** No separator is above a key that is above all others, if no leaf is empty. */
  lemma {:induction false} GoesLast<V>(t: Tree<V>, h: nat, lo: int, hi: int, key: int, order: int)
    requires order >= 2 && Ok(t, h, lo, hi, order - 1) && Formed(t, h) && t.Inner?
    requires Filled(LeafKeys(t)) && forall i :: 0 <= i < |EntriesOf(t)| ==> EntriesOf(t)[i].0 < key
    ensures UpperBound(t.keys, key) == |t.keys| && var c := t.children[|t.keys|]; var before := AllLeafKeys(t.children[..|t.keys|]);
            && LeafKeys(t) == before + LeafKeys(c) && LeafKeys(c) != [] && Filled(LeafKeys(c))
            && forall i :: 0 <= i < |EntriesOf(c)| ==> EntriesOf(c)[i].0 < key
  {
    var i := UpperBound(t.keys, key);
    hide LeafKeys, AllLeafKeys, EntriesOf, Flat, UpperBound;
    if i < |t.keys| {
      ChildBelow(t, h, i + 1, key);
      LowEdge(t.children[i + 1], h - 1, LoAt(t.keys, i + 1, lo), HiAt(t.keys, i + 1, hi), order - 1, key);
    }
    ChildBelow(t, h, |t.keys|, key);
    assert t.children[|t.keys| + 1..] == [];
    NoRows<V>();
  }

  lemma {:induction false} NoRows<V>()
    ensures AllLeafKeys<V>([]) == []
  {
  }

  /** A child's leaves and entries are among those of the node. */
  lemma {:induction false} ChildBelow<V>(t: Tree<V>, h: nat, j: nat, key: int)
    requires Formed(t, h) && t.Inner? && j < |t.children|
    requires Filled(LeafKeys(t)) && forall i :: 0 <= i < |EntriesOf(t)| ==> EntriesOf(t)[i].0 < key
    ensures var c := t.children[j];
            && LeafKeys(t) == AllLeafKeys(t.children[..j]) + LeafKeys(c) + AllLeafKeys(t.children[j + 1..])
            && LeafKeys(c) != [] && Filled(LeafKeys(c)) && EntriesOf(c) != []
            && forall i :: 0 <= i < |EntriesOf(c)| ==> EntriesOf(c)[i].0 < key
  {
    hide EntriesOf, Flat, AllLeafKeys;
    var c := t.children[j];
    var a, b := AllLeafKeys(t.children[..j]), AllLeafKeys(t.children[j + 1..]);
    assert t.children == t.children[..j] + [c] + t.children[j + 1..];
    AllKeysAround(t.children[..j], c, t.children[j + 1..]);
    NodeKeys(t);
    FlatChild(t, j);
    KeysOfLeaves(c, h - 1);
    hide LeafKeys;
    var x := Flat(t.children[..j]);
    forall i | 0 <= i < |EntriesOf(c)| ensures EntriesOf(c)[i].0 < key {
      assert EntriesOf(t)[|x| + i] == EntriesOf(c)[i];
    }
    forall i | 0 <= i < |LeafKeys(c)| ensures LeafKeys(c)[i] != [] {
      assert LeafKeys(t)[|a| + i] == LeafKeys(c)[i];
    }
    StrungIs(c, h - 1);
    RowLeads(LeafKeys(c));
  }

  lemma {:induction false} RowLeads(ks: seq<seq<int>>)
    requires Filled(ks) && ks != []
    ensures Strung(ks) != []
  {
  }

  lemma {:induction false} InsertGrows<V>(t: Tree<V>, h: nat, lo: int, hi: int, key: int, value: V, order: int)
    requires order >= 2 && Ok(t, h, lo, hi, order - 1) && Formed(t, h) && lo <= key < hi
    requires Filled(LeafKeys(t)) && forall i :: 0 <= i < |EntriesOf(t)| ==> EntriesOf(t)[i].0 < key
    ensures RowsOf(InsertInto(t, h, key, value, order)) == Grow(LeafKeys(t), key, order)
    decreases h
  {
    hide RowsOf, Grow, LeafKeys, AllLeafKeys, AfterChild, UpperBound, LowerBound, EntriesOf, Flat;
    if t.Leaf? {
      LeafEntries(t);
      LeafGrows(t, key, value, order);
    } else {
      var i := |t.keys|;
      GoesLast(t, h, lo, hi, key, order);
      InsertGrows(t.children[i], h - 1, LoAt(t.keys, i, lo), HiAt(t.keys, i, hi), key, value, order);
      var below := InsertInto(t.children[i], h - 1, key, value, order);
      GrowBehind(AllLeafKeys(t.children[..i]), LeafKeys(t.children[i]), key, order);
      AfterGrows(t, below, order);
    }
  }

  lemma {:induction false} LeafEntries<V>(t: Tree<V>)
    requires Formed(t, 0) && t.Leaf?
    ensures |EntriesOf(t)| == |t.keys| && forall i :: 0 <= i < |t.keys| ==> EntriesOf(t)[i].0 == t.keys[i]
  {
  }

  /** An insertion below the last child changes the leaves there. */
  lemma {:induction false} AfterGrows<V>(t: Tree<V>, below: Insertion<V>, order: int)
    requires order >= 2 && t.Inner? && |t.children| == |t.keys| + 1
    ensures RowsOf(AfterChild(t, |t.keys|, below, order)) == AllLeafKeys(t.children[..|t.keys|]) + RowsOf(below)
  {
    var i := |t.keys|;
    var a := t.children[..i];
    assert t.children[i + 1..] == [];
    match below {
      case Fits(c) =>
        assert t.children[i := c] == a + [c] + [];
        AllKeysAround(a, c, []);
        NodeKeys(Inner(t.keys, t.children[i := c]));
      case Splits(l, s, r) =>
        var u := WithHalves(t, i, l, s, r);
        assert u.children == a + [l, r] + [];
        AllKeysPair(a, l, r, []);
        NodeKeys(u);
        if |u.keys| > order - 1 {
          var mid := |u.keys| / 2;
          AllKeysAppend(u.children[..mid + 1], u.children[mid + 1..]);
          assert u.children == u.children[..mid + 1] + u.children[mid + 1..];
          NodeKeys(Inner(u.keys[..mid], u.children[..mid + 1]));
          NodeKeys(Inner(u.keys[mid + 1..], u.children[mid + 1..]));
        }
    }
  }

  /** What becomes of the leaves. */
  lemma {:induction false} AscendingInsert<V>(root: Root<V>, key: int, value: V, order: int)
    requires order >= 2 && Good(root, order) && Filled(KeysOf(root)) && forall i :: 0 <= i < |Contents(root)| ==> Contents(root)[i].0 < key
    ensures KeysOf(Insert(root, key, value, order)) == Grow(KeysOf(root), key, order) && Filled(Grow(KeysOf(root), key, order))
  {
    hide Good, InsertInto, LeafKeys, Grow, EntriesOf;
    GrowFilled(KeysOf(root), key, order);
    if root.None? {
      NewRoot(key, value, order);
    } else {
      var lo, hi := BoundsFor(root.value, order, key);
      assert Contents(root) == EntriesOf(root.value);
      InsertGrows(root.value, Height(root.value), lo, hi, key, value, order);
      RootRows(InsertInto(root.value, Height(root.value), key, value, order));
    }
  }

  lemma {:induction false} NewRoot<V>(key: int, value: V, order: int)
    requires order >= 2
    ensures KeysOf(Insert(None, key, value, order)) == Grow(KeysOf<V>(None), key, order)
  {
  }

  lemma {:induction false} RootRows<V>(r: Insertion<V>)
    ensures LeafKeys(GrowRoot(r)) == RowsOf(r)
  {
    if r.Splits? {
      AllKeysPair([], r.left, r.right, []);
      NodeKeys(GrowRoot(r));
      assert [] + [r.left, r.right] + [] == [r.left, r.right];
    }
  }

  // ---- all whole numbers from lo up to hi

  ghost function Range(lo: nat, hi: nat): (s: seq<int>)
    requires lo <= hi
    ensures |s| == hi - lo && forall i :: 0 <= i < |s| ==> s[i] == lo + i
    decreases hi - lo
  {
    if lo == hi then [] else [lo] + Range(lo + 1, hi)
  }

  lemma {:induction false} RangeHas(lo: nat, hi: nat, x: int)
    requires lo <= hi
    ensures x in Range(lo, hi) <==> lo <= x < hi
  {
    if lo <= x < hi {
      assert Range(lo, hi)[x - lo] == x;
    }
  }

  lemma {:induction false} RangeJoin(lo: nat, mid: nat, hi: nat)
    requires lo <= mid <= hi
    ensures Range(lo, mid) + Range(mid, hi) == Range(lo, hi)
  {
  }

  lemma {:induction false} RangeOne(p: nat)
    ensures Range(p, p + 1) == [p] && Range(p, p) == []
  {
  }

  lemma {:induction false} RangeCut(lo: nat, mid: nat, hi: nat)
    requires lo <= mid <= hi
    ensures Range(lo, hi)[..mid - lo] == Range(lo, mid) && Range(lo, hi)[mid - lo..] == Range(mid, hi)
  {
    RangeJoin(lo, mid, hi);
  }

  /** Strictly increasing and with just these members. */
  lemma {:induction false} RangeIs(s: seq<int>, lo: nat, hi: nat)
    requires lo < hi && StrictlySorted(s) && forall x :: x in s <==> lo <= x < hi
    ensures s == Range(lo, hi)
    decreases hi - lo
  {
    assert lo in s;
    assert s[0] in s && s[|s| - 1] in s;
    if lo + 1 < hi {
      forall x ensures x in s[1..] <==> lo + 1 <= x < hi {
        if lo + 1 <= x < hi {
          assert x in s;
          var j :| 0 <= j < |s| && s[j] == x;
          assert s[1..][j - 1] == x;
        }
      }
      RangeIs(s[1..], lo + 1, hi);
    }
  }

  /** The leaves that hold the numbers from lo up to hi when these have come in one by one: half an order in every leaf but the
      last. */
  ghost function Rows(lo: nat, hi: nat, order: nat): (ks: seq<seq<int>>)
    requires lo <= hi && order >= 2
    decreases hi - lo
  {
    if lo == hi then [] else if hi - lo < order then [Range(lo, hi)]
    else var m := (order + 1) / 2; [Range(lo, lo + m)] + Rows(lo + m, hi, order)
  }

  lemma {:induction false} RowsGrow(lo: nat, hi: nat, order: nat)
    requires lo <= hi && order >= 2
    ensures Grow(Rows(lo, hi, order), hi, order) == Rows(lo, hi + 1, order)
    decreases hi - lo
  {
    hide Range;
    var m := (order + 1) / 2;
    RangeJoin(lo, hi, hi + 1);
    RangeOne(hi);
    if lo == hi {
      assert Rows(lo, hi + 1, order) == [Range(lo, hi + 1)];
    } else if hi - lo < order {
      assert Rows(lo, hi, order)[..0] == [];
      if hi + 1 - lo == order {
        RangeCut(lo, lo + m, hi + 1);
      }
    } else {
      RowsGrow(lo + m, hi, order);
      GrowBehind([Range(lo, lo + m)], Rows(lo + m, hi, order), hi, order);
    }
  }
}
