/** Room for deletions: when every node keeps what is required of it anyway, nothing is borrowed or merged. */
module BPlusRoom {
  import opened BPlusModel
  import opened BPlusRuns
  import opened BPlusRepair
  import opened Walks

  /** The number of keys that are not to go. */
  ghost function Alive(keys: seq<int>, gone: set<int>): nat {
    if keys == [] then 0 else (if keys[0] in gone then 0 else 1) + Alive(keys[1..], gone)
  }

  /** Every node below keeps as much as it is required to, even when all keys in gone have been deleted. */
  ghost predicate Roomy<V>(t: Tree<V>, gone: set<int>, minKeys: nat, required: nat) {
    match t
    case Leaf(keys, _) => Alive(keys, gone) >= required
    case Inner(_, children) =>
      |children| >= required && forall i :: 0 <= i < |children| ==> Roomy(children[i], gone, minKeys, minKeys)
  }

  /** The children of the root are only required to keep one key or child. */
  ghost predicate RoomyRoot<V>(t: Tree<V>, gone: set<int>, minKeys: nat) {
    t.Inner? && |t.children| > 1 && forall i :: 0 <= i < |t.children| ==> Roomy(t.children[i], gone, minKeys, 1)
  }

  lemma {:induction false} AliveWithout(keys: seq<int>, gone: set<int>, i: nat)
    requires i < |keys| && keys[i] in gone
    ensures Alive(Without(keys, i), gone) == Alive(keys, gone) <= |keys| - 1
  {
    if i == 0 {
      assert Without(keys, 0) == keys[1..];
      AliveAtMost(keys[1..], gone);
    } else {
      assert Without(keys, i) == [keys[0]] + Without(keys[1..], i - 1);
      AliveWithout(keys[1..], gone, i - 1);
    }
  }

  lemma {:induction false} AliveAtMost(keys: seq<int>, gone: set<int>)
    ensures Alive(keys, gone) <= |keys|
  {
    if keys != [] {
      AliveAtMost(keys[1..], gone);
    }
  }

  /** Deleting a key that is to go repairs nothing and leaves the room there was. */
  lemma {:induction false} RoomyDelete<V>(t: Tree<V>, h: nat, key: int, gone: set<int>, minKeys: nat, required: nat)
    requires Formed(t, h) && minKeys >= 1 && key in gone && Roomy(t, gone, minKeys, required)
    ensures Fix(t, h, key, false, minKeys) == Nothing
    ensures var r := DeleteFrom(t, h, key, false, minKeys);
            r.Some? ==> Roomy(r.value, gone, minKeys, required) && !Underfull(r.value, required)
    decreases h
  {
    match t
    case Leaf(keys, values) =>
      var i := LowerBound(keys, key);
      if i < |keys| && keys[i] == key {
        AliveWithout(keys, gone, i);
      }
    case Inner(keys, children) =>
      var i := UpperBound(keys, key);
      RoomyDelete(children[i], h - 1, key, gone, minKeys, minKeys);
      hide Underfull, Alive;
      var r := DeleteFrom(children[i], h - 1, key, false, minKeys);
      if r.Some? {
        InnerUnderfull(Inner(keys, children[i := r.value]), required);
      }
  }

  lemma {:induction false} InnerUnderfull<V>(t: Tree<V>, required: nat)
    requires t.Inner?
    ensures Underfull(t, required) <==> |t.children| < required
  {
  }

  lemma {:induction false} RoomyRootDelete<V>(t: Tree<V>, h: nat, key: int, gone: set<int>, minKeys: nat)
    requires Formed(t, h) && minKeys >= 1 && key in gone && RoomyRoot(t, gone, minKeys)
    ensures Fix(t, h, key, true, minKeys) == Nothing
    ensures var r := DeleteFrom(t, h, key, true, minKeys); r.Some? ==> RoomyRoot(r.value, gone, minKeys)
  {
    var i := UpperBound(t.keys, key);
    RoomyDelete(t.children[i], h - 1, key, gone, minKeys, 1);
    hide Roomy, Underfull;
  }

  ghost predicate Room<V>(root: Root<V>, gone: set<int>, order: int) {
    order >= 2 && root.Some? && RoomyRoot(root.value, gone, order / 2)
  }

  lemma {:induction false} RoomStays<V>(root: Root<V>, key: int, gone: set<int>, order: int)
    requires Room(root, gone, order) && Good(root, order) && key in gone
    ensures FixOf(root, key, order) == Nothing && Room(After(root, DelOp(key), order), gone, order)
  {
    hide Good, Formed, DeleteFrom, Roomy, Fix;
    var t := root.value;
    GoodIsFormed(t, order);
    RoomyRootDelete(t, Height(t), key, gone, order / 2);
  }

  /** With room for them, deleting any of the keys, in any order, moves nothing. */
  lemma {:induction false} RoomIsSmooth<V>(root: Root<V>, gone: set<int>, keys: seq<int>, order: int)
    requires Room(root, gone, order) && Good(root, order) && forall key :: key in keys ==> key in gone
    ensures SmoothFor(root, keys, order)
    decreases |keys|
  {
    hide Good, RoomyRoot, After, FixOf;
    if keys != [] {
      RoomStays(root, keys[0], gone, order);
      RoomIsSmooth(After(root, DelOp(keys[0]), order), gone, keys[1..], order);
    }
  }
}
