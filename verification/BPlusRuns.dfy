/** The price index over whole runs of insert and delete. */
module BPlusRuns {
  import opened SortedEntries
  import opened BPlusModel

  type Root<V> = Option<Tree<V>>

  ghost function Height<V>(t: Tree<V>): nat {
    if t.Leaf? || t.children == [] then 0 else 1 + Height(t.children[0])
  }

  lemma {:induction false} HeightIs<V>(t: Tree<V>, h: nat)
    requires Formed(t, h)
    ensures Height(t) == h
  {
    if t.Inner? {
      HeightIs(t.children[0], h - 1);
    }
  }

  ghost predicate OkAt<V>(t: Tree<V>, lo: int, hi: int, order: int)
    requires order >= 2
  {
    Ok(t, Height(t), lo, hi, order - 1)
  }

  /** What every reachable root satisfies: separators strictly increasing and around their children's keys, one child
      more than separators, all leaves equally deep, at most order - 1 keys a node. */
  ghost predicate Good<V>(root: Root<V>, order: int)
    requires order >= 2
  {
    root.Some? ==> exists lo, hi :: OkAt(root.value, lo, hi, order)
  }

  ghost function Contents<V>(root: Root<V>): Entries<V> {
    if root.None? then [] else EntriesOf(root.value)
  }

  lemma {:induction false} Widen<V>(t: Tree<V>, h: nat, lo: int, hi: int, lo': int, hi': int, m: nat)
    requires Ok(t, h, lo, hi, m) && lo' <= lo && hi <= hi'
    ensures Ok(t, h, lo', hi', m)
    decreases h
  {
    if t.Inner? {
      var keys, cs := t.keys, t.children;
      forall i | 0 <= i < |cs| ensures Ok(cs[i], h - 1, LoAt(keys, i, lo'), HiAt(keys, i, hi'), m) {
        Widen(cs[i], h - 1, LoAt(keys, i, lo), HiAt(keys, i, hi), LoAt(keys, i, lo'), HiAt(keys, i, hi'), m);
      }
    }
  }

  /** Bounds wide enough to contain a given key. */
  lemma {:induction false} BoundsFor<V>(t: Tree<V>, order: int, key: int) returns (lo: int, hi: int)
    requires order >= 2 && Good(Some(t), order)
    ensures Ok(t, Height(t), lo, hi, order - 1) && lo <= key < hi && Formed(t, Height(t))
  {
    var lo0, hi0 :| OkAt(t, lo0, hi0, order);
    lo, hi := if key < lo0 then key else lo0, if key < hi0 then hi0 else key + 1;
    Widen(t, Height(t), lo0, hi0, lo, hi, order - 1);
    OrderedIsFormed(t, Height(t), lo, hi, order - 1);
  }

  lemma {:induction false} GoodIf<V>(t: Tree<V>, h: nat, lo: int, hi: int, order: int)
    requires order >= 2 && Ok(t, h, lo, hi, order - 1)
    ensures Good(Some(t), order) && Height(t) == h
  {
    OrderedIsFormed(t, h, lo, hi, order - 1);
    HeightIs(t, h);
    assert OkAt(t, lo, hi, order);
  }

  lemma {:induction false} GoodIsFormed<V>(t: Tree<V>, order: int)
    requires order >= 2 && Good(Some(t), order)
    ensures Formed(t, Height(t)) && Ascending(EntriesOf(t))
  {
    var lo, hi := BoundsFor(t, order, 0);
    EntriesAscend(t, Height(t), lo, hi, order - 1);
  }

  // ---- the operations on the root

  ghost function GrowRoot<V>(r: Insertion<V>): Tree<V> {
    match r
    case Fits(t) => t
    case Splits(l, s, r) => Inner([s], [l, r])
  }

  ghost function Insert<V>(root: Root<V>, key: int, value: V, order: int): Root<V>
    requires order >= 2 && Good(root, order)
  {
    if root.None? then Some(Leaf([key], [value]))
    else
      GoodIsFormed(root.value, order);
      Some(GrowRoot(InsertInto(root.value, Height(root.value), key, value, order)))
  }

  /** A root with one child gives way to it; an empty leaf at the root goes away. */
  ghost function ShrinkRoot<V>(t: Tree<V>): Root<V> {
    var u := if t.Inner? && |t.children| == 1 then t.children[0] else t;
    if u.Leaf? && |u.keys| == 0 then None else Some(u)
  }

  /** None when the key was not there and nothing changed. */
  ghost function Delete<V>(root: Root<V>, key: int, order: int): Option<Root<V>>
    requires order >= 2 && Good(root, order)
  {
    if root.None? then None
    else
      GoodIsFormed(root.value, order);
      match DeleteFrom(root.value, Height(root.value), key, true, order / 2)
      case None => None
      case Some(t) => Some(ShrinkRoot(t))
  }

  lemma {:induction false} GrowRootOk<V>(r: Insertion<V>, h: nat, lo: int, hi: int, order: int, es: Entries<V>)
    requires order >= 2 && InsertedOk(r, h, lo, hi, order - 1, es)
    ensures Good(Some(GrowRoot(r)), order) && EntriesOf(GrowRoot(r)) == es
    ensures Height(GrowRoot(r)) == if r.Fits? then h else h + 1
  {
    match r
    case Fits(t) => GoodIf(t, h, lo, hi, order);
    case Splits(l, s, r) =>
      FlatTwo(l, r);
      GoodIf(Inner([s], [l, r]), h + 1, lo, hi, order);
  }

  lemma {:induction false} InsertOk<V>(root: Root<V>, key: int, value: V, order: int)
    requires order >= 2 && Good(root, order)
    ensures Good(Insert(root, key, value, order), order)
    ensures Contents(Insert(root, key, value, order)) == Put(Contents(root), key, value)
  {
    if root.None? {
      GoodIf(Leaf([key], [value]), 0, key, key + 1, order);
    } else {
      var t := root.value;
      var lo, hi := BoundsFor(t, order, key);
      InsertIntoOk(t, Height(t), key, value, lo, hi, order);
      GrowRootOk(InsertInto(t, Height(t), key, value, order), Height(t), lo, hi, order, Put(EntriesOf(t), key, value));
    }
  }

  lemma {:induction false} ShrinkRootOk<V>(t: Tree<V>, h: nat, lo: int, hi: int, order: int)
    requires order >= 2 && Ok(t, h, lo, hi, order - 1)
    ensures Good(ShrinkRoot(t), order) && Contents(ShrinkRoot(t)) == EntriesOf(t)
  {
    var u, g := t, h;
    if t.Inner? && |t.children| == 1 {
      u, g := t.children[0], h - 1;
      assert Ok(u, h - 1, LoAt(t.keys, 0, lo), HiAt(t.keys, 0, hi), order - 1);
      assert t.children == [u];
      FlatOne(u);
    }
    GoodIf(u, g, lo, hi, order);
  }

  lemma {:induction false} DeleteOk<V>(root: Root<V>, key: int, order: int)
    requires order >= 2 && Good(root, order)
    ensures var r := Delete(root, key, order);
            && (r.None? <==> Find(Contents(root), key) == None)
            && (r.Some? ==> Good(r.value, order) && Contents(r.value) == Del(Contents(root), key))
  {
    if root.Some? {
      var t := root.value;
      var lo, hi := BoundsFor(t, order, key);
      DeleteFromOk(t, Height(t), key, lo, hi, true, order);
      var r := DeleteFrom(t, Height(t), key, true, order / 2);
      if r.Some? {
        ShrinkRootOk(r.value, Height(t), lo, hi, order);
      }
    }
    hide Good, Contents, EntriesOf, Del;
  }

  // ---- every run is a finite map

  datatype Op<V> = PutOp(key: int, value: V) | DelOp(key: int)

  ghost predicate Sound<V>(root: Root<V>, order: int)
    requires order >= 2
  {
    Good(root, order) && Ascending(Contents(root))
  }

  lemma {:induction false} GoodIsSound<V>(root: Root<V>, order: int)
    requires order >= 2 && Good(root, order)
    ensures Sound(root, order)
  {
    if root.Some? {
      GoodIsFormed(root.value, order);
    }
  }

  ghost function After<V>(root: Root<V>, op: Op<V>, order: int): (r: Root<V>)
    requires order >= 2 && Good(root, order)
    ensures Good(r, order)
  {
    match op
    case PutOp(k, v) => InsertOk(root, k, v, order); Insert(root, k, v, order)
    case DelOp(k) => DeleteOk(root, k, order); var r := Delete(root, k, order); if r.Some? then r.value else root
  }

  ghost function Run<V>(ops: seq<Op<V>>, order: int): (r: Root<V>)
    requires order >= 2
    ensures Good(r, order)
  {
    if ops == [] then None else After(Run(ops[..|ops| - 1], order), ops[|ops| - 1], order)
  }

  ghost function MapRun<V>(ops: seq<Op<V>>): map<int, V> {
    if ops == [] then map[]
    else
      var m := MapRun(ops[..|ops| - 1]);
      match ops[|ops| - 1]
      case PutOp(k, v) => m[k := v]
      case DelOp(k) => m - {k}
  }

  /** One insert or delete on the tree is the same insert or delete on the map of its entries. */
  lemma {:induction false} AfterMeans<V>(root: Root<V>, op: Op<V>, order: int)
    requires order >= 2 && Good(root, order)
    ensures ToMap(Contents(After(root, op, order))) ==
            match op case PutOp(k, v) => ToMap(Contents(root))[k := v] case DelOp(k) => ToMap(Contents(root)) - {k}
    ensures op.DelOp? ==> (Delete(root, op.key, order).Some? <==> op.key in ToMap(Contents(root)))
  {
    hide Good, Contents, Insert, Delete, Put, Del, Find, ToMap;
    GoodIsSound(root, order);
    var es := Contents(root);
    match op
    case PutOp(k, v) =>
      InsertOk(root, k, v, order);
      PutMeans(es, k, v);
    case DelOp(k) =>
      DeleteOk(root, k, order);
      FindMeans(es, k);
      DelMeans(es, k);
  }

  /** The tree refines a finite map over every run. */
  lemma {:induction false} RunIsMap<V>(ops: seq<Op<V>>, order: int)
    requires order >= 2
    ensures ToMap(Contents(Run(ops, order))) == MapRun(ops)
    ensures Ascending(Contents(Run(ops, order)))
  {
    hide Good, Contents, After;
    GoodIsSound(Run(ops, order), order);
    if ops == [] {
      assert Contents(Run(ops, order)) == [] by { EmptyRun<V>(order); }
    } else {
      RunIsMap(ops[..|ops| - 1], order);
      AfterMeans(Run(ops[..|ops| - 1], order), ops[|ops| - 1], order);
    }
  }

  lemma {:induction false} EmptyRun<V>(order: int)
    requires order >= 2
    ensures Contents(Run<V>([], order)) == []
  {
  }

  /** What get returns: the descent to one leaf and the search in it. */
  ghost function Get<V>(root: Root<V>, key: int, order: int): Option<V>
    requires order >= 2 && Good(root, order)
  {
    if root.None? then None
    else
      GoodIsFormed(root.value, order);
      var l := LeafFor(root.value, Height(root.value), key);
      var i := LowerBound(l.keys, key);
      if i < |l.keys| && l.keys[i] == key then Some(l.values[i]) else None
  }

  lemma {:induction false} GetMeans<V>(root: Root<V>, key: int, order: int)
    requires order >= 2 && Good(root, order)
    ensures var m := ToMap(Contents(root));
            Get(root, key, order) == if key in m then Some(m[key]) else None
  {
    if root.Some? {
      var t := root.value;
      var lo, hi := BoundsFor(t, order, key);
      LeafForOk(t, Height(t), key, lo, hi, order - 1);
      var l := LeafFor(t, Height(t), key);
      FindZip(l.keys, l.values, key);
      GoodIsFormed(t, order);
      FindMeans(EntriesOf(t), key);
    }
    hide ToMap, EntriesOf, Find, LowerBound, LeafFor, Good;
  }

  lemma {:induction false} HasKeyMeans<V>(t: Tree<V>, key: int, order: int)
    requires order >= 2 && Good(Some(t), order)
    ensures Formed(t, Height(t)) && (HasKey(t, Height(t), key) <==> Find(EntriesOf(t), key) != None)
  {
    var lo, hi := BoundsFor(t, order, key);
    LeafForOk(t, Height(t), key, lo, hi, order - 1);
    var l := LeafFor(t, Height(t), key);
    FindZip(l.keys, l.values, key);
    hide LeafFor, Find, EntriesOf, LowerBound, Good;
  }
}
