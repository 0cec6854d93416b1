/** What a deletion does to the leaves: which leaf loses a key, how that leaf is repaired, and which leaf is given up. */
module BPlusRepair {
  import opened SortedEntries
  import opened BPlusModel
  import opened BPlusRuns
  import opened BPlusShape

  /** A leaf that falls short borrows an item from its left or right neighbour, is merged into the left one, or takes the
      right one in. */
  datatype Repair = Nothing | FromLeft | FromRight | IntoLeft | OfRight

  // ---- the keys of the leaves, left to right

  ghost function LeafKeys<V>(t: Tree<V>): (ks: seq<seq<int>>) {
    match t
    case Leaf(keys, _) => [keys]
    case Inner(_, children) => AllLeafKeys(children)
  }

  ghost function AllLeafKeys<V>(ts: seq<Tree<V>>): seq<seq<int>> {
    if ts == [] then [] else LeafKeys(ts[0]) + AllLeafKeys(ts[1..])
  }

  lemma {:induction false} AllKeysAppend<V>(a: seq<Tree<V>>, b: seq<Tree<V>>)
    ensures AllLeafKeys(a + b) == AllLeafKeys(a) + AllLeafKeys(b)
  {
    if a == [] {
      assert a + b == b;
    } else {
      assert (a + b)[0] == a[0] && (a + b)[1..] == a[1..] + b;
      AllKeysAppend(a[1..], b);
    }
  }

  lemma {:induction false} AllKeysOne<V>(t: Tree<V>)
    ensures AllLeafKeys([t]) == LeafKeys(t)
  {
    assert [t][1..] == [];
  }

  lemma {:induction false} AllKeysAround<V>(a: seq<Tree<V>>, t: Tree<V>, b: seq<Tree<V>>)
    ensures AllLeafKeys(a + [t] + b) == AllLeafKeys(a) + LeafKeys(t) + AllLeafKeys(b)
  {
    AllKeysAppend(a + [t], b);
    AllKeysAppend(a, [t]);
    AllKeysOne(t);
  }

  lemma {:induction false} AllKeysPair<V>(a: seq<Tree<V>>, l: Tree<V>, r: Tree<V>, b: seq<Tree<V>>)
    ensures AllLeafKeys(a + [l, r] + b) == AllLeafKeys(a) + (LeafKeys(l) + LeafKeys(r)) + AllLeafKeys(b)
  {
    assert a + [l, r] + b == (a + [l]) + [r] + b;
    AllKeysAround(a + [l], r, b);
    AllKeysAppend(a, [l]);
    AllKeysOne(l);
  }

  /** They are the keys of the leaves and, strung together, those of the entries. */
  lemma {:induction false} KeysOfLeaves<V>(t: Tree<V>, h: nat)
    requires Formed(t, h)
    ensures |LeafKeys(t)| == |Leaves(t)| > 0 && forall i :: 0 <= i < |LeafKeys(t)| ==> LeafKeys(t)[i] == Leaves(t)[i].keys
    decreases h, 0
  {
    if t.Inner? {
      KeysOfAllLeaves(t.children, h - 1);
    }
  }

  lemma {:induction false} KeysOfAllLeaves<V>(ts: seq<Tree<V>>, h: nat)
    requires forall i :: 0 <= i < |ts| ==> Formed(ts[i], h)
    ensures |AllLeafKeys(ts)| == |AllLeaves(ts)| && (ts != [] ==> |AllLeafKeys(ts)| > 0)
    ensures forall i :: 0 <= i < |AllLeafKeys(ts)| ==> AllLeafKeys(ts)[i] == AllLeaves(ts)[i].keys
    decreases h, 1, |ts|
  {
    if ts != [] {
      KeysOfLeaves(ts[0], h);
      KeysOfAllLeaves(ts[1..], h);
    }
  }

  lemma {:induction false} KeysOfFlat<V>(ts: seq<Tree<V>>)
    requires forall i :: 0 <= i < |ts| ==> ts[i].Leaf?
    ensures |AllLeafKeys(ts)| == |ts| && forall i :: 0 <= i < |ts| ==> AllLeafKeys(ts)[i] == ts[i].keys
  {
    if ts != [] {
      KeysOfFlat(ts[1..]);
    }
  }

  // ---- where a key goes from, and the repair

  ghost function Place<V>(t: Tree<V>, h: nat, key: int): nat
    requires Formed(t, h)
    decreases h
  {
    if t.Leaf? then 0
    else
      var i := UpperBound(t.keys, key);
      |AllLeafKeys(t.children[..i])| + Place(t.children[i], h - 1, key)
  }

  ghost function RepairAt<V>(children: seq<Tree<V>>, i: nat, minKeys: nat): Repair {
    if 0 < i <= |children| && |children[i - 1].keys| > minKeys then FromLeft
    else if i + 1 < |children| && |children[i + 1].keys| > minKeys then FromRight
    else if i > 0 then IntoLeft
    else if i + 1 < |children| then OfRight
    else Nothing
  }

  ghost function Fix<V>(t: Tree<V>, h: nat, key: int, atRoot: bool, minKeys: nat): Repair
    requires Formed(t, h) && minKeys >= 1
    decreases h
  {
    if t.Leaf? then Nothing
    else
      var i := UpperBound(t.keys, key);
      var r := DeleteFrom(t.children[i], h - 1, key, false, minKeys);
      if h > 1 then Fix(t.children[i], h - 1, key, false, minKeys)
      else if r.None? || !Underfull(r.value, Required(atRoot, minKeys)) then Nothing
      else RepairAt(t.children, i, minKeys)
  }

  /** The leaves a repair touches. */
  function Opens(n: nat, fix: Repair): int { if fix == FromLeft || fix == IntoLeft then n - 1 else n }

  function Closes(n: nat, fix: Repair): int { if fix == FromRight || fix == OfRight then n + 2 else n + 1 }

  ghost predicate Repairable(ks: seq<seq<int>>, n: nat, k: nat, fix: Repair) {
    && n < |ks| && k < |ks[n]| && 0 <= Opens(n, fix) && Closes(n, fix) <= |ks|
    && (fix == FromLeft ==> |ks[n - 1]| > 0) && (fix == FromRight ==> |ks[n + 1]| > 0)
  }

  /** What becomes of them when position k of leaf n goes. */
  ghost function Mended(ks: seq<seq<int>>, n: nat, k: nat, fix: Repair): seq<seq<int>>
    requires Repairable(ks, n, k, fix)
  {
    var d := Without(ks[n], k);
    match fix
    case Nothing => [d]
    case FromLeft => var m := |ks[n - 1]| - 1; [ks[n - 1][..m], [ks[n - 1][m]] + d]
    case FromRight => [d + [ks[n + 1][0]], ks[n + 1][1..]]
    case IntoLeft => [ks[n - 1] + d]
    case OfRight => [d + ks[n + 1]]
  }

  /** The keys of the leaves after position k of leaf n has gone and the leaf has been repaired. */
  ghost function Moved(ks: seq<seq<int>>, n: nat, k: nat, fix: Repair): seq<seq<int>>
    requires Repairable(ks, n, k, fix)
  {
    ks[..Opens(n, fix)] + Mended(ks, n, k, fix) + ks[Closes(n, fix)..]
  }

  /** A list kept beside the leaves loses the place of the leaf that is given up. */
  ghost function Shorter<T>(c: seq<T>, n: nat, fix: Repair): seq<T> {
    if fix == IntoLeft && n < |c| then Without(c, n)
    else if fix == OfRight && n + 1 < |c| then Without(c, n + 1)
    else c
  }

  lemma {:induction false} MovedAround(a: seq<seq<int>>, ks: seq<seq<int>>, b: seq<seq<int>>, n: nat, k: nat, fix: Repair)
    requires Repairable(ks, n, k, fix)
    ensures Repairable(a + ks + b, |a| + n, k, fix) && Moved(a + ks + b, |a| + n, k, fix) == a + Moved(ks, n, k, fix) + b
  {
    MendedAround(a, ks, b, n, k, fix);
    hide Mended;
    var c, p, q := a + ks + b, Opens(n, fix), Closes(n, fix);
    SlicesAround(a, ks, b, p, q);
    Regroup(a, ks[..p], Mended(ks, n, k, fix), ks[q..], b);
  }

  lemma {:induction false} MendedAround(a: seq<seq<int>>, ks: seq<seq<int>>, b: seq<seq<int>>, n: nat, k: nat, fix: Repair)
    requires Repairable(ks, n, k, fix)
    ensures Repairable(a + ks + b, |a| + n, k, fix) && Mended(a + ks + b, |a| + n, k, fix) == Mended(ks, n, k, fix)
  {
    var c := a + ks + b;
    InMiddle(a, ks, b, n);
    if n > 0 {
      InMiddle(a, ks, b, n - 1);
    }
    if n + 1 < |ks| {
      InMiddle(a, ks, b, n + 1);
    }
  }

  lemma {:induction false} InMiddle<T>(a: seq<T>, c: seq<T>, b: seq<T>, i: nat)
    requires i < |c|
    ensures (a + c + b)[|a| + i] == c[i]
  {
  }

  lemma {:induction false} ShorterAround<T>(a: seq<T>, c: seq<T>, b: seq<T>, n: nat, fix: Repair)
    requires (fix == IntoLeft ==> n < |c|) && (fix == OfRight ==> n + 1 < |c|)
    ensures Shorter(a + c + b, |a| + n, fix) == a + Shorter(c, n, fix) + b
  {
    if fix == IntoLeft {
      WithoutAround(a, c, b, n);
    }
    if fix == OfRight {
      WithoutAround(a, c, b, n + 1);
    }
    hide Without;
  }

  lemma {:induction false} WithoutAround<T>(a: seq<T>, c: seq<T>, b: seq<T>, n: nat)
    requires n < |c|
    ensures Without(a + c + b, |a| + n) == a + Without(c, n) + b
  {
    SlicesAround(a, c, b, n, n + 1);
  }

  lemma {:induction false} SlicesAround<T>(a: seq<T>, c: seq<T>, b: seq<T>, p: nat, q: nat)
    requires p <= |c| && q <= |c|
    ensures (a + c + b)[..|a| + p] == a + c[..p] && (a + c + b)[|a| + q..] == c[q..] + b
  {
  }

  // ---- repairs of inner nodes leave the leaves alone

  lemma {:induction false} PairKeepsLeaves<V>(t: Tree<V>, j: nat, p: Pair<V>)
    requires t.Inner? && |t.children| == |t.keys| + 1 && j < |t.keys|
    requires LeafKeys(t.children[j]) + LeafKeys(t.children[j + 1])
               == if p.Two? then LeafKeys(p.left) + LeafKeys(p.right) else LeafKeys(p.tree)
    ensures LeafKeys(WithPair(t, j, p)) == LeafKeys(t)
  {
    var cs := t.children;
    var a, b := cs[..j], cs[j + 2..];
    assert cs == a + [cs[j], cs[j + 1]] + b;
    AllKeysPair(a, cs[j], cs[j + 1], b);
    match p
    case Two(l, s, r) =>
      UpdatedPair(cs, j, l, r);
      AllKeysPair(a, l, r, b);
    case One(c) => AllKeysAround(a, c, b);
  }

  lemma {:induction false} ShiftsKeepLeaves<V>(l: Tree<V>, s: int, r: Tree<V>, h: nat)
    requires Formed(l, h) && Formed(r, h) && h > 0
    ensures |l.keys| >= 1 ==> var p := ShiftRight(l, s, r, h); LeafKeys(p.left) + LeafKeys(p.right) == LeafKeys(l) + LeafKeys(r)
    ensures |r.keys| >= 2 ==> var p := ShiftLeft(l, s, r, h); LeafKeys(p.left) + LeafKeys(p.right) == LeafKeys(l) + LeafKeys(r)
    ensures LeafKeys(Merge(l, s, r, h).tree) == LeafKeys(l) + LeafKeys(r)
  {
    hide LeafKeys;
    NodeKeys(l);
    NodeKeys(r);
    AllKeysAppend(l.children, r.children);
    NodeKeys(Merge(l, s, r, h).tree);
    if |l.keys| >= 1 {
      var p, n := ShiftRight(l, s, r, h), |l.children| - 1;
      NodeKeys(p.left);
      NodeKeys(p.right);
      assert l.children == l.children[..n] + [l.children[n]];
      AllKeysAppend(l.children[..n], [l.children[n]]);
      AllKeysAppend([l.children[n]], r.children);
    }
    if |r.keys| >= 2 {
      var p := ShiftLeft(l, s, r, h);
      NodeKeys(p.left);
      NodeKeys(p.right);
      assert r.children == [r.children[0]] + r.children[1..];
      AllKeysAppend([r.children[0]], r.children[1..]);
      AllKeysAppend(l.children, [r.children[0]]);
    }
  }

  lemma {:induction false} NodeKeys<V>(t: Tree<V>)
    requires t.Inner?
    ensures LeafKeys(t) == AllLeafKeys(t.children)
  {
  }

  /** Nor do borrowing and merging between the children j and j + 1. */
  lemma {:induction false} PairsKeepLeaves<V>(t: Tree<V>, h: nat, j: nat)
    requires Formed(t, h) && h >= 2 && t.Inner? && j < |t.keys|
    ensures var l, s, r := t.children[j], t.keys[j], t.children[j + 1];
            && (|l.keys| >= 1 ==> LeafKeys(WithPair(t, j, ShiftRight(l, s, r, h - 1))) == LeafKeys(t))
            && (|r.keys| >= 2 ==> LeafKeys(WithPair(t, j, ShiftLeft(l, s, r, h - 1))) == LeafKeys(t))
            && LeafKeys(WithPair(t, j, Merge(l, s, r, h - 1))) == LeafKeys(t)
  {
    var l, s, r := t.children[j], t.keys[j], t.children[j + 1];
    ShiftsKeepLeaves(l, s, r, h - 1);
    PairShapes(l, s, r, h - 1);
    hide LeafKeys, WithPair, ShiftLeft, ShiftRight, Merge;
    if |l.keys| >= 1 {
      PairKeepsLeaves(t, j, ShiftRight(l, s, r, h - 1));
    }
    if |r.keys| >= 2 {
      PairKeepsLeaves(t, j, ShiftLeft(l, s, r, h - 1));
    }
    PairKeepsLeaves(t, j, Merge(l, s, r, h - 1));
  }

  lemma {:induction false} PairShapes<V>(l: Tree<V>, s: int, r: Tree<V>, h: nat)
    requires Formed(l, h) && Formed(r, h)
    ensures (|l.keys| >= 1 ==> ShiftRight(l, s, r, h).Two?) && (|r.keys| >= 2 ==> ShiftLeft(l, s, r, h).Two?) && Merge(l, s, r, h).One?
  {
  }

  lemma {:induction false} RebalanceKeepsLeaves<V>(t: Tree<V>, h: nat, i: nat, minKeys: nat)
    requires Formed(t, h) && h >= 2 && t.Inner? && i < |t.children| && minKeys >= 1
    ensures LeafKeys(Rebalance(t, h, i, minKeys)) == LeafKeys(t)
  {
    hide LeafKeys, WithPair, ShiftLeft, ShiftRight, Merge;
    if i > 0 {
      PairsKeepLeaves(t, h, i - 1);
    }
    if i + 1 < |t.children| {
      PairsKeepLeaves(t, h, i);
    }
  }

  // ---- repairs of leaves

  /** A leaf without one of its items. */
  ghost function Dropped<V>(c: Tree<V>, k: nat): Tree<V>
    requires c.Leaf? && k < |c.keys| == |c.values|
  {
    Leaf(Without(c.keys, k), Without(c.values, k))
  }

  ghost predicate AllLeaf<V>(ts: seq<Tree<V>>) {
    forall i :: 0 <= i < |ts| ==> ts[i].Leaf? && |ts[i].keys| == |ts[i].values|
  }

  lemma {:induction false} PairOverwrites<V>(t: Tree<V>, i: nat, d: Tree<V>, j: nat, p: Pair<V>)
    requires t.Inner? && |t.children| == |t.keys| + 1 && j < |t.keys| && (i == j || i == j + 1)
    ensures WithPair(Inner(t.keys, t.children[i := d]), j, p) == WithPair(t, j, p)
  {
    assert p.Two? ==> t.children[i := d][j := p.left][j + 1 := p.right] == t.children[j := p.left][j + 1 := p.right];
    assert t.children[i := d][..j] == t.children[..j] && t.children[i := d][j + 2..] == t.children[j + 2..];
  }

  lemma {:induction false} PairKeys<V>(t: Tree<V>, j: nat, p: Pair<V>)
    requires t.Inner? && |t.children| == |t.keys| + 1 && j < |t.keys|
    requires if p.Two? then p.left.Leaf? && p.right.Leaf? else p.tree.Leaf?
    ensures LeafKeys(WithPair(t, j, p)) == AllLeafKeys(t.children[..j])
                                           + (if p.Two? then [p.left.keys, p.right.keys] else [p.tree.keys])
                                           + AllLeafKeys(t.children[j + 2..])
  {
    hide LeafKeys, AllLeafKeys;
    var a, b := t.children[..j], t.children[j + 2..];
    NodeKeys(WithPair(t, j, p));
    match p
    case Two(l, s, r) =>
      UpdatedPair(t.children, j, l, r);
      AllKeysPair(a, l, r, b);
      LeafIs(l);
      LeafIs(r);
      assert [l.keys] + [r.keys] == [l.keys, r.keys];
    case One(c) =>
      AllKeysAround(a, c, b);
      LeafIs(c);
  }

  lemma {:induction false} LeafPairKeys<V>(t: Tree<V>, j: nat, p: Pair<V>)
    requires t.Inner? && |t.children| == |t.keys| + 1 && j < |t.keys| && AllLeaf(t.children)
    requires if p.Two? then p.left.Leaf? && p.right.Leaf? else p.tree.Leaf?
    ensures |LeafKeys(t)| == |t.children|
    ensures var ks := LeafKeys(t);
            LeafKeys(WithPair(t, j, p)) == ks[..j] + (if p.Two? then [p.left.keys, p.right.keys] else [p.tree.keys]) + ks[j + 2..]
  {
    var a, b := t.children[..j], t.children[j + 2..];
    KeysOfFlat(t.children);
    assert t.children == a + [t.children[j], t.children[j + 1]] + b;
    KeysOfFlat(a);
    KeysOfFlat(b);
    AllKeysPair(a, t.children[j], t.children[j + 1], b);
    hide LeafKeys;
    NodeKeys(t);
    assert AllLeafKeys(a) == LeafKeys(t)[..j] && AllLeafKeys(b) == LeafKeys(t)[j + 2..];
    PairKeys(t, j, p);
    hide AllLeafKeys, AllLeaf, WithPair;
  }

  lemma {:induction false} UpdatedPair<T>(s: seq<T>, j: nat, x: T, y: T)
    requires j + 1 < |s|
    ensures s[j := x][j + 1 := y] == s[..j] + [x, y] + s[j + 2..]
  {
  }

  lemma {:induction false} LeafIs<V>(t: Tree<V>)
    requires t.Leaf?
    ensures LeafKeys(t) == [t.keys]
  {
  }

  /** The leaves a repair leaves behind when leaf i has become d. */
  ghost function LeafPair<V>(cs: seq<Tree<V>>, i: nat, d: Tree<V>, fix: Repair): Pair<V>
    requires AllLeaf(cs) && d.Leaf? && i < |cs| && 0 <= Opens(i, fix) && Closes(i, fix) <= |cs|
    requires (fix == FromLeft ==> |cs[i - 1].keys| > 0) && (fix == FromRight ==> |cs[i + 1].keys| > 1)
  {
    match fix
    case Nothing => One(d)
    case FromLeft =>
      var l, m := cs[i - 1], |cs[i - 1].keys| - 1;
      Two(Leaf(l.keys[..m], l.values[..m]), l.keys[m], Leaf([l.keys[m]] + d.keys, [l.values[m]] + d.values))
    case FromRight =>
      var r := cs[i + 1];
      Two(Leaf(d.keys + [r.keys[0]], d.values + [r.values[0]]), r.keys[1], Leaf(r.keys[1..], r.values[1..]))
    case IntoLeft => One(Leaf(cs[i - 1].keys + d.keys, cs[i - 1].values + d.values))
    case OfRight => One(Leaf(d.keys + cs[i + 1].keys, d.values + cs[i + 1].values))
  }

  lemma {:induction false} RebalanceIs<V>(t: Tree<V>, i: nat, d: Tree<V>, minKeys: nat)
    requires Formed(t, 1) && t.Inner? && AllLeaf(t.children) && i < |t.children| && d.Leaf? && Formed(d, 0) && minKeys >= 1
    ensures var u := Inner(t.keys, t.children[i := d]); var fix := RepairAt(t.children, i, minKeys);
            && Formed(u, 1) && 0 <= Opens(i, fix) && Closes(i, fix) <= |t.children|
            && (fix == FromLeft ==> |t.children[i - 1].keys| > 0) && (fix == FromRight ==> |t.children[i + 1].keys| > 1)
            && Rebalance(u, 1, i, minKeys) == if fix == Nothing then u else WithPair(u, Opens(i, fix), LeafPair(t.children, i, d, fix))
  {
    ReplaceFormed(t, 1, i, d);
    hide WithPair;
  }

  /** The node above the leaves, after the key at position k of its leaf i has gone. */
  lemma {:induction false} LeafRepaired<V>(t: Tree<V>, i: nat, k: nat, minKeys: nat)
    requires Formed(t, 1) && t.Inner? && AllLeaf(t.children) && i < |t.children| && k < |t.children[i].keys| && minKeys >= 1
    ensures var d := Dropped(t.children[i], k); var u := Inner(t.keys, t.children[i := d]);
            var ks, fix := LeafKeys(t), RepairAt(t.children, i, minKeys);
            && Formed(u, 1) && |ks| == |t.children| && ks[i] == t.children[i].keys && Repairable(ks, i, k, fix)
            && LeafKeys(Rebalance(u, 1, i, minKeys)) == Moved(ks, i, k, fix)
  {
    var cs, d, fix := t.children, Dropped(t.children[i], k), RepairAt(t.children, i, minKeys);
    RebalanceIs(t, i, d, minKeys);
    LeafLeft(t, i, k);
    KeysOfFlat(cs);
    NodeKeys(t);
    hide LeafKeys, Formed, WithPair, Rebalance, RepairAt;
    if fix != Nothing {
      var j, p := Opens(i, fix), LeafPair(cs, i, d, fix);
      PairOverwrites(t, i, d, j, p);
      LeafPairKeys(t, j, p);
      MendedIs(t, i, k, fix);
      hide LeafPair, Mended;
    }
  }

  lemma {:induction false} MendedIs<V>(t: Tree<V>, i: nat, k: nat, fix: Repair)
    requires t.Inner? && AllLeaf(t.children) && i < |t.children| && k < |t.children[i].keys|
    requires 0 <= Opens(i, fix) && Closes(i, fix) <= |t.children| && fix != Nothing
    requires (fix == FromLeft ==> |t.children[i - 1].keys| > 0) && (fix == FromRight ==> |t.children[i + 1].keys| > 1)
    ensures var ks, p := LeafKeys(t), LeafPair(t.children, i, Dropped(t.children[i], k), fix);
            && |ks| == |t.children| && Repairable(ks, i, k, fix)
            && Mended(ks, i, k, fix) == (if p.Two? then [p.left.keys, p.right.keys] else [p.tree.keys])
  {
    KeysOfFlat(t.children);
    NodeKeys(t);
    hide LeafKeys;
  }

  /** The node above the leaves, after the key at position k of its leaf i has gone without a repair. */
  lemma {:induction false} LeafLeft<V>(t: Tree<V>, i: nat, k: nat)
    requires Formed(t, 1) && t.Inner? && AllLeaf(t.children) && i < |t.children| && k < |t.children[i].keys|
    ensures var u := Inner(t.keys, t.children[i := Dropped(t.children[i], k)]); var ks := LeafKeys(t);
            |ks| == |t.children| && ks[i] == t.children[i].keys && Repairable(ks, i, k, Nothing) && LeafKeys(u) == Moved(ks, i, k, Nothing)
  {
    var u := Inner(t.keys, t.children[i := Dropped(t.children[i], k)]);
    KeysOfFlat(t.children);
    KeysOfFlat(u.children);
    NodeKeys(t);
    NodeKeys(u);
    hide LeafKeys;
  }

  // ---- whole deletions

  /** Leaf n has lost the key and has been repaired; no other leaf has changed. */
  ghost predicate Loses(ks: seq<seq<int>>, ks': seq<seq<int>>, n: nat, key: int, fix: Repair) {
    n < |ks| && var k := LowerBound(ks[n], key);
                Repairable(ks, n, k, fix) && ks[n][k] == key && ks' == Moved(ks, n, k, fix)
  }

  lemma {:induction false} DeleteMoves<V>(t: Tree<V>, h: nat, key: int, atRoot: bool, minKeys: nat)
    requires Formed(t, h) && minKeys >= 1 && DeleteFrom(t, h, key, atRoot, minKeys).Some?
    ensures Loses(LeafKeys(t), LeafKeys(DeleteFrom(t, h, key, atRoot, minKeys).value), Place(t, h, key), key, Fix(t, h, key, atRoot, minKeys))
    decreases h
  {
    hide LeafKeys, DeleteFrom, Loses, Formed;
    FormedHeight(t, h);
    match t
    case Leaf(keys, values) => LeafLoses(t, key, atRoot, minKeys);
    case Inner(keys, children) =>
      var i := UpperBound(keys, key);
      if h == 1 {
        DeleteFromLeaf(t, key, atRoot, minKeys);
      } else {
        InnerKeepsLeaves(t, h, key, atRoot, minKeys);
        DeleteMoves(children[i], h - 1, key, false, minKeys);
        var a, b := children[..i], children[i + 1..];
        LosesBelow(a, children[i], DeleteFrom(children[i], h - 1, key, false, minKeys).value, b,
                   Place(children[i], h - 1, key), key, Fix(children[i], h - 1, key, false, minKeys));
      }
  }

  lemma {:induction false} FormedHeight<V>(t: Tree<V>, h: nat)
    requires Formed(t, h)
    ensures t.Leaf? <==> h == 0
    ensures t.Inner? ==> |t.children| == |t.keys| + 1 && forall i :: 0 <= i < |t.children| ==> Formed(t.children[i], h - 1)
  {
  }

  lemma {:induction false} ChildLeaves<V>(t: Tree<V>)
    requires Formed(t, 1) && t.Inner?
    ensures AllLeaf(t.children)
  {
  }

  lemma {:induction false} LeafLoses<V>(t: Tree<V>, key: int, atRoot: bool, minKeys: nat)
    requires Formed(t, 0) && minKeys >= 1 && DeleteFrom(t, 0, key, atRoot, minKeys).Some?
    ensures Loses(LeafKeys(t), LeafKeys(DeleteFrom(t, 0, key, atRoot, minKeys).value), Place(t, 0, key), key, Fix(t, 0, key, atRoot, minKeys))
  {
  }

  lemma {:induction false} LeafDeleted<V>(c: Tree<V>, key: int, atRoot: bool, minKeys: nat)
    requires c.Leaf? && Formed(c, 0) && minKeys >= 1
    ensures var r := DeleteFrom(c, 0, key, atRoot, minKeys); var k := LowerBound(c.keys, key);
            if k < |c.keys| && c.keys[k] == key then r == Some(Dropped(c, k)) else r.None?
  {
  }

  lemma {:induction false} DeleteFromLeaf<V>(t: Tree<V>, key: int, atRoot: bool, minKeys: nat)
    requires Formed(t, 1) && t.Inner? && minKeys >= 1 && DeleteFrom(t, 1, key, atRoot, minKeys).Some?
    ensures Loses(LeafKeys(t), LeafKeys(DeleteFrom(t, 1, key, atRoot, minKeys).value), Place(t, 1, key), key, Fix(t, 1, key, atRoot, minKeys))
  {
    hide LeafKeys, Moved, Rebalance, Repairable, LowerBound, RepairAt, Formed;
    var i := UpperBound(t.keys, key);
    FormedHeight(t, 1);
    ChildLeaves(t);
    var c := t.children[i];
    FormedHeight(c, 0);
    KeysOfFlat(t.children[..i]);
    LeafDeleted(c, key, false, minKeys);
    var k := LowerBound(c.keys, key);
    LeafRepaired(t, i, k, minKeys);
    LeafLeft(t, i, k);
  }

  /** What a deletion below an inner node comes to. */
  lemma {:induction false} DeleteStep<V>(t: Tree<V>, h: nat, key: int, atRoot: bool, minKeys: nat)
    requires Formed(t, h) && t.Inner? && minKeys >= 1
    ensures var i := UpperBound(t.keys, key);
            && h > 0 && i < |t.children| && Formed(t.children[i], h - 1)
            && var r := DeleteFrom(t.children[i], h - 1, key, false, minKeys);
               && (r.Some? ==> Formed(Inner(t.keys, t.children[i := r.value]), h) && (r.value.Leaf? <==> h == 1))
               && DeleteFrom(t, h, key, atRoot, minKeys)
                  == (if r.None? then None
                      else if Underfull(r.value, Required(atRoot, minKeys)) then Some(Rebalance(Inner(t.keys, t.children[i := r.value]), h, i, minKeys))
                      else Some(Inner(t.keys, t.children[i := r.value])))
  {
    hide Underfull, Rebalance;
  }

  /** Which leaf a deletion below an inner node repairs, and how. */
  lemma {:induction false} FixStep<V>(t: Tree<V>, h: nat, key: int, atRoot: bool, minKeys: nat)
    requires Formed(t, h) && t.Inner? && minKeys >= 1
    ensures var i := UpperBound(t.keys, key);
            && h > 0 && i < |t.children| && Formed(t.children[i], h - 1)
            && Place(t, h, key) == |AllLeafKeys(t.children[..i])| + Place(t.children[i], h - 1, key)
            && var r := DeleteFrom(t.children[i], h - 1, key, false, minKeys);
               if h > 1 then Fix(t, h, key, atRoot, minKeys) == Fix(t.children[i], h - 1, key, false, minKeys)
               else && Place(t.children[i], h - 1, key) == 0 && Fix(t.children[i], h - 1, key, false, minKeys) == Nothing
                    && Fix(t, h, key, atRoot, minKeys)
                       == if r.None? || !Underfull(r.value, Required(atRoot, minKeys)) then Nothing else RepairAt(t.children, i, minKeys)
  {
  }

  lemma {:induction false} UpdateAround<T>(s: seq<T>, i: nat, x: T)
    requires i < |s|
    ensures s == s[..i] + [s[i]] + s[i + 1..] && s[i := x] == s[..i] + [x] + s[i + 1..]
  {
  }

  /** Above the leaves' parents a deletion, repairs included, leaves the other leaves in their places. */
  lemma {:induction false} InnerKeepsLeaves<V>(t: Tree<V>, h: nat, key: int, atRoot: bool, minKeys: nat)
    requires Formed(t, h) && h >= 2 && t.Inner? && minKeys >= 1 && DeleteFrom(t, h, key, atRoot, minKeys).Some?
    ensures var i := UpperBound(t.keys, key); var c := t.children[i]; var r := DeleteFrom(c, h - 1, key, false, minKeys);
            && r.Some? && t.children == t.children[..i] + [c] + t.children[i + 1..]
            && LeafKeys(DeleteFrom(t, h, key, atRoot, minKeys).value) == AllLeafKeys(t.children[..i] + [r.value] + t.children[i + 1..])
            && LeafKeys(t) == AllLeafKeys(t.children)
  {
    hide LeafKeys, AllLeafKeys, Rebalance, DeleteFrom, Formed, Underfull, UpperBound;
    DeleteStep(t, h, key, atRoot, minKeys);
    var i := UpperBound(t.keys, key);
    var r := DeleteFrom(t.children[i], h - 1, key, false, minKeys).value;
    var u := Inner(t.keys, t.children[i := r]);
    if Underfull(r, Required(atRoot, minKeys)) {
      RebalanceKeepsLeaves(u, h, i, minKeys);
    }
    UpdateAround(t.children, i, r);
    NodeKeys(t);
    NodeKeys(u);
  }

  lemma {:induction false} LosesBelow<V>(a: seq<Tree<V>>, c: Tree<V>, r: Tree<V>, b: seq<Tree<V>>, n: nat, key: int, fix: Repair)
    requires Loses(LeafKeys(c), LeafKeys(r), n, key, fix)
    ensures Loses(AllLeafKeys(a + [c] + b), AllLeafKeys(a + [r] + b), |AllLeafKeys(a)| + n, key, fix)
  {
    hide LeafKeys, AllLeafKeys, Moved, LowerBound, Repairable;
    var ks := LeafKeys(c);
    AllKeysAround(a, c, b);
    AllKeysAround(a, r, b);
    InMiddle(AllLeafKeys(a), ks, AllLeafKeys(b), n);
    MovedAround(AllLeafKeys(a), ks, AllLeafKeys(b), n, LowerBound(ks[n], key), fix);
  }

  // ---- trees that may be empty

  ghost function KeysOf<V>(root: Root<V>): seq<seq<int>> {
    if root.None? then [] else LeafKeys(root.value)
  }

  ghost function PlaceOf<V>(root: Root<V>, key: int, order: int): nat
    requires order >= 2 && Good(root, order)
  {
    if root.None? then 0 else GoodIsFormed(root.value, order); Place(root.value, Height(root.value), key)
  }

  ghost function FixOf<V>(root: Root<V>, key: int, order: int): Repair
    requires order >= 2 && Good(root, order)
  {
    if root.None? then Nothing
    else GoodIsFormed(root.value, order); Fix(root.value, Height(root.value), key, true, order / 2)
  }

  ghost function Strung(ks: seq<seq<int>>): seq<int> { if ks == [] then [] else ks[0] + Strung(ks[1..]) }

  ghost function KeysAlong<V>(es: Entries<V>): (keys: seq<int>)
    ensures |keys| == |es| && forall i :: 0 <= i < |es| ==> keys[i] == es[i].0
  {
    if es == [] then [] else [es[0].0] + KeysAlong(es[1..])
  }

  lemma {:induction false} StrungAppend(a: seq<seq<int>>, b: seq<seq<int>>)
    ensures Strung(a + b) == Strung(a) + Strung(b)
  {
    if a == [] {
      assert a + b == b;
    } else {
      assert (a + b)[0] == a[0] && (a + b)[1..] == a[1..] + b;
      StrungAppend(a[1..], b);
    }
  }

  lemma {:induction false} KeysAlongAppend<V>(a: Entries<V>, b: Entries<V>)
    ensures KeysAlong(a + b) == KeysAlong(a) + KeysAlong(b)
  {
  }

  lemma {:induction false} KeysOfZip<V>(keys: seq<int>, values: seq<V>)
    requires |keys| == |values|
    ensures KeysAlong(Zip(keys, values)) == keys
  {
    if keys != [] {
      ZipCons(keys, values);
      KeysOfZip(keys[1..], values[1..]);
      KeysAlongAppend([(keys[0], values[0])], Zip(keys[1..], values[1..]));
    }
    hide Zip;
  }

  lemma {:induction false} StrungIs<V>(t: Tree<V>, h: nat)
    requires Formed(t, h)
    ensures Strung(LeafKeys(t)) == KeysAlong(EntriesOf(t))
    decreases h, 0
  {
    match t
    case Leaf(keys, values) =>
      KeysOfZip(keys, values);
      assert Strung([keys]) == keys + Strung([]);
    case Inner(_, children) => AllStrungIs(children, h - 1);
  }

  lemma {:induction false} AllStrungIs<V>(ts: seq<Tree<V>>, h: nat)
    requires forall i :: 0 <= i < |ts| ==> Formed(ts[i], h)
    ensures Strung(AllLeafKeys(ts)) == KeysAlong(Flat(ts))
    decreases h, 1, |ts|
  {
    if ts != [] {
      StrungIs(ts[0], h);
      AllStrungIs(ts[1..], h);
      StrungAppend(LeafKeys(ts[0]), AllLeafKeys(ts[1..]));
      KeysAlongAppend(EntriesOf(ts[0]), Flat(ts[1..]));
      hide Strung, KeysAlong;
    }
  }

  /** The leaves list the stored keys in ascending order. */
  lemma {:induction false} KeysAscend<V>(root: Root<V>, order: int)
    requires order >= 2 && Good(root, order)
    ensures Strung(KeysOf(root)) == KeysAlong(Contents(root)) && StrictlySorted(Strung(KeysOf(root)))
  {
    if root.Some? {
      GoodIsFormed(root.value, order);
      StrungIs(root.value, Height(root.value));
      hide Good, Strung, EntriesOf, LeafKeys;
    }
  }

  /** What a deletion does to the leaves of a whole tree. */
  lemma {:induction false} AfterMoves<V>(root: Root<V>, key: int, order: int)
    requires order >= 2 && Good(root, order) && Find(Contents(root), key) != None
    ensures var r := After(root, DelOp(key), order);
            && |Contents(r)| == |Contents(root)| - 1
            && var ks, n := KeysOf(root), PlaceOf(root, key, order);
               n < |ks| && LowerBound(ks[n], key) < |ks[n]| && ks[n][LowerBound(ks[n], key)] == key
               && (r.None? ==> |Contents(root)| == 1)
               && (r.Some? ==> Loses(ks, KeysOf(r), n, key, FixOf(root, key, order)))
  {
    hide Good, LeafKeys, Loses, Find, Del, EntriesOf, LowerBound;
    NothingFound<V>(key);
    var t := root.value;
    GoodIsFormed(t, order);
    DeleteOk(root, key, order);
    DelAscends(Contents(root), key);
    assert DeleteFrom(t, Height(t), key, true, order / 2).Some?;
    DeleteMoves(t, Height(t), key, true, order / 2);
    LosesKey(LeafKeys(t), LeafKeys(DeleteFrom(t, Height(t), key, true, order / 2).value), Place(t, Height(t), key), key,
             Fix(t, Height(t), key, true, order / 2));
    ShrinkKeepsLeaves(DeleteFrom(t, Height(t), key, true, order / 2).value);
  }

  lemma {:induction false} NothingFound<V>(key: int)
    ensures Find<V>([], key) == None
  {
  }

  lemma {:induction false} LosesKey(ks: seq<seq<int>>, ks': seq<seq<int>>, n: nat, key: int, fix: Repair)
    requires Loses(ks, ks', n, key, fix)
    ensures n < |ks| && LowerBound(ks[n], key) < |ks[n]| && ks[n][LowerBound(ks[n], key)] == key
  {
  }

  lemma {:induction false} ShrinkKeepsLeaves<V>(t: Tree<V>)
    ensures ShrinkRoot(t).Some? ==> LeafKeys(ShrinkRoot(t).value) == LeafKeys(t)
  {
    if t.Inner? && |t.children| == 1 {
      assert t.children == [t.children[0]];
      AllKeysOne(t.children[0]);
      NodeKeys(t);
    }
    hide LeafKeys;
  }
}
