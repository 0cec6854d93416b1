/** A run after which the largest entry cannot be found: order 3, three levels, and an empty last leaf. */
module BPlusExample {
  import opened SortedEntries
  import opened BPlusModel
  import opened BPlusRuns
  import opened BPlusShape

  ghost function L(keys: seq<int>): Tree<int> { Leaf(keys, keys) }

  ghost function Low(): Tree<int> { Inner([3], [L([1, 2]), L([3, 4])]) }

  ghost function Wide(last: Tree<int>): Tree<int> { Inner([3, 5], [L([1, 2]), L([3, 4]), last]) }

  ghost function Tall(last: Tree<int>): Tree<int> { Inner([5], [Low(), last]) }

  // ---- one node at a time

  lemma {:induction false} Push(keys: seq<int>, key: int)
    requires |keys| == 1 && keys[0] < key
    ensures InsertInto(L(keys), 0, key, key, 3) == Fits(L([keys[0], key]))
  {
    assert LowerBound(keys, key) == 1;
    assert Spliced(keys, 1, key) == [keys[0], key];
  }

  lemma {:induction false} PushSplit(keys: seq<int>, key: int)
    requires |keys| == 2 && keys[0] < keys[1] < key
    ensures InsertInto(L(keys), 0, key, key, 3) == Splits(L(keys), key, L([key]))
  {
    assert LowerBound(keys, key) == 2;
    var ks := Spliced(keys, 2, key);
    assert ks == [keys[0], keys[1], key];
    assert ks[..2] == keys && ks[2..] == [key];
  }

  lemma {:induction false} SecondLevel()
    ensures var t := Inner([3], [L([1, 2]), L([3])]); Formed(t, 1) && InsertInto(t, 1, 4, 4, 3) == Fits(Low())
  {
    Push([3], 4);
    assert [L([1, 2]), L([3])][1 := L([3, 4])] == Low().children;
  }

  lemma {:induction false} ThirdLeaf()
    ensures Formed(Low(), 1) && InsertInto(Low(), 1, 5, 5, 3) == Fits(Wide(L([5])))
  {
    PushSplit([3, 4], 5);
    assert Spliced([3], 1, 5) == [3, 5];
    assert Low().children[..1] + [L([3, 4]), L([5])] + Low().children[2..] == Wide(L([5])).children;
  }

  lemma {:induction false} ThirdLeafGrows()
    ensures Formed(Wide(L([5])), 1) && InsertInto(Wide(L([5])), 1, 6, 6, 3) == Fits(Wide(L([5, 6])))
  {
    Push([5], 6);
    assert UpperBound([3, 5], 6) == 2;
    assert Wide(L([5])).children[2 := L([5, 6])] == Wide(L([5, 6])).children;
  }

  lemma {:induction false} RootSplits()
    ensures Formed(Wide(L([5, 6])), 1)
    ensures InsertInto(Wide(L([5, 6])), 1, 7, 7, 3) == Splits(Low(), 5, Inner([7], [L([5, 6]), L([7])]))
  {
    PushSplit([5, 6], 7);
    assert UpperBound([3, 5], 7) == 2;
    var cs := Wide(L([5, 6])).children;
    var ks, ds := Spliced([3, 5], 2, 7), cs[..2] + [L([5, 6]), L([7])] + cs[3..];
    assert ks == [3, 5, 7] && ks[..1] == [3] && ks[2..] == [7];
    assert ds == [L([1, 2]), L([3, 4]), L([5, 6]), L([7])];
    assert ds[..2] == Low().children && ds[2..] == [L([5, 6]), L([7])];
  }

  lemma {:induction false} Pop(key: int)
    ensures DeleteFrom(L([key]), 0, key, false, 1) == Some(L([]))
  {
    assert LowerBound([key], key) == 0;
    assert Without([key], 0) == [];
  }

  /** Deleting the last key of the last leaf borrows from its left neighbour. */
  lemma {:induction false} Borrows()
    ensures var t := Inner([7], [L([5, 6]), L([7])]);
            Formed(t, 1) && DeleteFrom(t, 1, 7, false, 1) == Some(Inner([6], [L([5]), L([6])]))
  {
    Pop(7);
    var t := Inner([7], [L([5, 6]), L([7])]);
    assert UpperBound([7], 7) == 1;
    assert t.children[1 := L([])] == [L([5, 6]), L([])];
    assert [5, 6][..1] == [5] && [6] + [] == [6] && [7][0 := 6] == [6];
    assert [L([5, 6]), L([])][0 := L([5])][1 := L([6])] == [L([5]), L([6])];
  }

  lemma {:induction false} Merges()
    ensures var t := Inner([6], [L([5]), L([6])]);
            Formed(t, 1) && DeleteFrom(t, 1, 6, false, 1) == Some(Inner([], [L([5])]))
  {
    Pop(6);
    var t := Inner([6], [L([5]), L([6])]);
    assert UpperBound([6], 6) == 1;
    assert t.children[1 := L([])] == [L([5]), L([])];
    assert [5] + [] == [5] && Without([6], 0) == [];
    assert [L([5]), L([])][..0] + [L([5])] + [L([5]), L([])][2..] == [L([5])];
  }

  lemma {:induction false} Empties()
    ensures var t := Inner([], [L([5])]);
            Formed(t, 1) && DeleteFrom(t, 1, 5, false, 1) == Some(Inner([], [L([])]))
  {
    Pop(5);
    assert [L([5])][0 := L([])] == [L([])];
  }

  lemma {:induction false} DeleteRight(key: int, last: Tree<int>, last': Tree<int>)
    requires key >= 5 && last.Inner? && last'.Inner? && Formed(last, 1) && |last'.children| > 0
    requires DeleteFrom(last, 1, key, false, 1) == Some(last')
    ensures Formed(Tall(last), 2) && DeleteFrom(Tall(last), 2, key, true, 1) == Some(Tall(last'))
  {
    assert UpperBound([5], key) == 1;
    assert Tall(last).children[1 := last'] == Tall(last').children;
  }

  // ---- the run

  lemma {:induction false} Step(ops: seq<Op<int>>, op: Op<int>, t: Tree<int>, u: Tree<int>)
    requires Run(ops, 3) == Some(t) && After(Run(ops, 3), op, 3) == Some(u)
    ensures Run(ops + [op], 3) == Some(u)
  {
    assert (ops + [op])[..|ops + [op]| - 1] == ops;
  }

  lemma {:induction false} Inserted(ops: seq<Op<int>>, key: int, t: Tree<int>, h: nat, r: Insertion<int>)
    requires Run(ops, 3) == Some(t) && Formed(t, h) && InsertInto(t, h, key, key, 3) == r
    ensures Run(ops + [PutOp(key, key)], 3) == Some(GrowRoot(r))
  {
    HeightIs(t, h);
    Step(ops, PutOp(key, key), t, GrowRoot(r));
  }

  lemma {:induction false} Deleted(ops: seq<Op<int>>, key: int, t: Tree<int>, u: Tree<int>)
    requires Run(ops, 3) == Some(t) && Formed(t, 2) && DeleteFrom(t, 2, key, true, 1) == Some(u)
    requires u.Inner? && |u.children| == 2
    ensures Run(ops + [DelOp(key)], 3) == Some(u)
  {
    hide DeleteFrom, Run, Good, EntriesOf;
    HeightIs(t, 2);
    Step(ops, DelOp(key), t, u);
  }

  ghost function Puts(n: nat): seq<Op<int>> {
    if n == 0 then [] else Puts(n - 1) + [PutOp(n, n)]
  }

  lemma {:induction false} BuiltThree()
    ensures Run(Puts(3), 3) == Some(Inner([3], [L([1, 2]), L([3])]))
  {
    assert Puts(0) == [] && Puts(1) == [PutOp(1, 1)];
    assert Puts(1)[..0] == [];
    assert Run(Puts(1), 3) == Some(L([1]));
    Push([1], 2);
    Inserted(Puts(1), 2, L([1]), 0, Fits(L([1, 2])));
    PushSplit([1, 2], 3);
    Inserted(Puts(2), 3, L([1, 2]), 0, Splits(L([1, 2]), 3, L([3])));
  }

  lemma {:induction false} Built()
    ensures Run(Puts(7), 3) == Some(Tall(Inner([7], [L([5, 6]), L([7])])))
  {
    hide Run, InsertInto;
    BuiltThree();
    SecondLevel();
    Inserted(Puts(3), 4, Inner([3], [L([1, 2]), L([3])]), 1, Fits(Low()));
    ThirdLeaf();
    Inserted(Puts(4), 5, Low(), 1, Fits(Wide(L([5]))));
    ThirdLeafGrows();
    Inserted(Puts(5), 6, Wide(L([5])), 1, Fits(Wide(L([5, 6]))));
    RootSplits();
    Inserted(Puts(6), 7, Wide(L([5, 6])), 1, Splits(Low(), 5, Inner([7], [L([5, 6]), L([7])])));
  }

  ghost function FailingRun(): seq<Op<int>> { Puts(7) + [DelOp(7)] + [DelOp(6)] + [DelOp(5)] }

  lemma {:induction false} AlmostThere()
    ensures var root := Run(Puts(7) + [DelOp(7)] + [DelOp(6)], 3);
            root == Some(Tall(Inner([], [L([5])]))) && After(root, DelOp(5), 3) == Some(Tall(Inner([], [L([])])))
  {
    hide Run, DeleteFrom, EntriesOf;
    Built();
    Borrows();
    Merges();
    Empties();
    DeleteRight(7, Inner([7], [L([5, 6]), L([7])]), Inner([6], [L([5]), L([6])]));
    Deleted(Puts(7), 7, Tall(Inner([7], [L([5, 6]), L([7])])), Tall(Inner([6], [L([5]), L([6])])));
    DeleteRight(6, Inner([6], [L([5]), L([6])]), Inner([], [L([5])]));
    Deleted(Puts(7) + [DelOp(7)], 6, Tall(Inner([6], [L([5]), L([6])])), Tall(Inner([], [L([5])])));
    DeleteRight(5, Inner([], [L([5])]), Inner([], [L([])]));
    HeightIs(Tall(Inner([], [L([5])])), 2);
  }

  /** Four entries are stored, the key 4 is found by get, and maxEntry still answers that there is none. */
  lemma {:induction false} MaxEntryMissesFour()
    ensures var root := Run(FailingRun(), 3);
            && root.Some? && Formed(root.value, Height(root.value))
            && First(Contents(root)) == Some((1, 1)) && Last(Contents(root)) == Some((4, 4))
            && MaxEntry(root) == None
  {
    hide Run, After, MaxEntry, EntriesOf;
    AlmostThere();
    Step(Puts(7) + [DelOp(7)] + [DelOp(6)], DelOp(5), Tall(Inner([], [L([5])])), Tall(Inner([], [L([])])));
    Answer();
  }

  lemma {:induction false} Answer()
    ensures var t := Tall(Inner([], [L([])]));
            && Formed(t, Height(t)) && MaxEntry(Some(t)) == None
            && First(EntriesOf(t)) == Some((1, 1)) && Last(EntriesOf(t)) == Some((4, 4))
  {
    var t, e := Tall(Inner([], [L([])])), Inner([], [L([])]);
    HeightIs(t, 2);
    FlatTwo(Low(), e);
    FlatTwo(L([1, 2]), L([3, 4]));
    FlatOne(L([]));
    assert EntriesOf(e) == [];
    assert Zip([1, 2], [1, 2]) == [(1, 1), (2, 2)] && Zip([3, 4], [3, 4]) == [(3, 3), (4, 4)];
    assert EntriesOf(Low()) == [(1, 1), (2, 2)] + [(3, 3), (4, 4)];
    assert Leaves(e) == [L([])] by { FlatLeaves(e.children); }
    assert Leaves(t) == Leaves(Low()) + Leaves(e) by {
      assert t.children[1..] == [e];
      assert AllLeaves([e]) == Leaves(e) + [];
    }
  }
}
