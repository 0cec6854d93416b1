/** The price index as a value: the tree each operation produces, and what stays true of it. */
module BPlusModel {
  import opened SortedEntries

  datatype Tree<V> =
    | Leaf(keys: seq<int>, values: seq<V>)
    | Inner(keys: seq<int>, children: seq<Tree<V>>)

  /** What inserting below a node gives its parent: the node itself, or two halves and their separator. */
  datatype Insertion<V> =
    | Fits(tree: Tree<V>)
    | Splits(left: Tree<V>, key: int, right: Tree<V>)

  // ---- the two binary searches, by what they find

  function LowerBound(keys: seq<int>, key: int): (i: nat)
    ensures i <= |keys|
    ensures forall j :: 0 <= j < i ==> keys[j] < key
    ensures i < |keys| ==> key <= keys[i]
  {
    if keys == [] || key <= keys[0] then 0 else 1 + LowerBound(keys[1..], key)
  }

  function UpperBound(keys: seq<int>, key: int): (i: nat)
    ensures i <= |keys|
    ensures forall j :: 0 <= j < i ==> keys[j] <= key
    ensures i < |keys| ==> key < keys[i]
  {
    if keys == [] || key < keys[0] then 0 else 1 + UpperBound(keys[1..], key)
  }

  // ---- shape

  /** Every leaf is h levels down, and every node has one child more than separators. */
  ghost predicate Formed<V>(t: Tree<V>, h: nat) {
    match t
    case Leaf(keys, values) => h == 0 && |values| == |keys|
    case Inner(keys, children) =>
      h > 0 && |children| == |keys| + 1 &&
      forall i :: 0 <= i < |children| ==> Formed(children[i], h - 1)
  }

  ghost function LoAt(keys: seq<int>, i: int, lo: int): int
    requires 0 <= i <= |keys|
  {
    if i == 0 then lo else keys[i - 1]
  }

  ghost function HiAt(keys: seq<int>, i: int, hi: int): int
    requires 0 <= i <= |keys|
  {
    if i == |keys| then hi else keys[i]
  }

  /** Strictly increasing separators inside lo..hi, each child inside its own separators; at most m keys in each
      proper descendant. */
  ghost predicate Ordered<V>(t: Tree<V>, h: nat, lo: int, hi: int, m: nat)
    decreases h, 0
  {
    && StrictlySorted(t.keys)
    && match t
       case Leaf(keys, values) =>
         h == 0 && |values| == |keys| && forall i :: 0 <= i < |keys| ==> lo <= keys[i] < hi
       case Inner(keys, children) =>
         && h > 0 && |children| == |keys| + 1
         && (forall i :: 0 <= i < |keys| ==> lo < keys[i] < hi)
         && forall i :: 0 <= i < |children| ==> Ok(children[i], h - 1, LoAt(keys, i, lo), HiAt(keys, i, hi), m)
  }

  ghost predicate Ok<V>(t: Tree<V>, h: nat, lo: int, hi: int, m: nat)
    decreases h, 1
  {
    |t.keys| <= m && Ordered(t, h, lo, hi, m)
  }

  lemma {:induction false} OrderedIsFormed<V>(t: Tree<V>, h: nat, lo: int, hi: int, m: nat)
    requires Ordered(t, h, lo, hi, m)
    ensures Formed(t, h)
    decreases h
  {
    if t.Inner? {
      forall i | 0 <= i < |t.children| ensures Formed(t.children[i], h - 1) {
        OrderedIsFormed(t.children[i], h - 1, LoAt(t.keys, i, lo), HiAt(t.keys, i, hi), m);
      }
    }
  }

  // ---- contents

  ghost function EntriesOf<V>(t: Tree<V>): Entries<V> {
    match t
    case Leaf(keys, values) => if |keys| == |values| then Zip(keys, values) else []
    case Inner(keys, children) => Flat(children)
  }

  ghost function Flat<V>(ts: seq<Tree<V>>): Entries<V> {
    if ts == [] then [] else EntriesOf(ts[0]) + Flat(ts[1..])
  }

  lemma {:induction false} FlatAppend<V>(a: seq<Tree<V>>, b: seq<Tree<V>>)
    ensures Flat(a + b) == Flat(a) + Flat(b)
  {
    if a == [] {
      assert a + b == b;
    } else {
      var ab := a + b;
      assert ab[0] == a[0] && ab[1..] == a[1..] + b;
      FlatAppend(a[1..], b);
      Assoc(EntriesOf(a[0]), Flat(a[1..]), Flat(b));
    }
  }

  lemma {:induction false} FlatAround<V>(a: seq<Tree<V>>, c: seq<Tree<V>>, b: seq<Tree<V>>)
    ensures Flat(a + c + b) == Flat(a) + Flat(c) + Flat(b)
  {
    FlatAppend(a + c, b);
    FlatAppend(a, c);
  }

  lemma {:induction false} FlatOne<V>(t: Tree<V>)
    ensures Flat([t]) == EntriesOf(t)
  {
    assert Flat([t]) == EntriesOf(t) + [];
  }

  lemma {:induction false} FlatTwo<V>(t: Tree<V>, u: Tree<V>)
    ensures Flat([t, u]) == EntriesOf(t) + EntriesOf(u)
  {
    assert [t, u][1..] == [u];
    FlatOne(u);
  }

  /** The entries of an ordered tree are ascending and inside its bounds. */
  lemma {:induction false} EntriesAscend<V>(t: Tree<V>, h: nat, lo: int, hi: int, m: nat)
    requires Ordered(t, h, lo, hi, m)
    ensures KeysIn(EntriesOf(t), lo, hi) && Ascending(EntriesOf(t))
    decreases h, 1, 0
  {
    if t.Inner? {
      ChildrenAscend(t, h, lo, hi, m, 0, |t.children|);
      assert t.children[0..|t.children|] == t.children;
    }
  }

  lemma {:induction false} ChildrenAscend<V>(t: Tree<V>, h: nat, lo: int, hi: int, m: nat, i: nat, j: nat)
    requires Ordered(t, h, lo, hi, m) && t.Inner?
    requires i <= j <= |t.children|
    ensures Ascending(Flat(t.children[i..j]))
    ensures i < j ==> KeysIn(Flat(t.children[i..j]), LoAt(t.keys, i, lo), HiAt(t.keys, j - 1, hi))
    decreases h, 0, j - i
  {
    if i < j {
      var c := t.children[i..j];
      assert c[1..] == t.children[i + 1..j];
      ChildrenAscend(t, h, lo, hi, m, i + 1, j);
      EntriesAscend(t.children[i], h - 1, LoAt(t.keys, i, lo), HiAt(t.keys, i, hi), m);
      if i + 1 == j {
        assert Flat(c) == EntriesOf(t.children[i]) + [];
      } else {
        assert LoAt(t.keys, i + 1, lo) == HiAt(t.keys, i, hi) == t.keys[i];
        assert LoAt(t.keys, i, lo) < t.keys[i] < HiAt(t.keys, j - 1, hi);
      }
    }
  }

  lemma {:induction false} FlatChild<V>(t: Tree<V>, i: nat)
    requires t.Inner? && i < |t.children|
    ensures EntriesOf(t) == Flat(t.children[..i]) + EntriesOf(t.children[i]) + Flat(t.children[i + 1..])
  {
    var cs := t.children;
    assert cs == cs[..i] + [cs[i]] + cs[i + 1..];
    FlatAround(cs[..i], [cs[i]], cs[i + 1..]);
    FlatOne(cs[i]);
  }

  /** Around the child a key belongs to, everything to the left is smaller and everything to the right larger. */
  lemma {:induction false} ChildHoldsKey<V>(t: Tree<V>, h: nat, lo: int, hi: int, m: nat, key: int, i: nat)
    requires Ordered(t, h, lo, hi, m) && t.Inner?
    requires lo <= key < hi && i == UpperBound(t.keys, key)
    ensures i < |t.children| && LoAt(t.keys, i, lo) <= key < HiAt(t.keys, i, hi)
    ensures EntriesOf(t) == Flat(t.children[..i]) + EntriesOf(t.children[i]) + Flat(t.children[i + 1..])
    ensures Below(Flat(t.children[..i]), key) && Above(Flat(t.children[i + 1..]), key)
  {
    var cs := t.children;
    hide Flat, EntriesOf, UpperBound;
    ChildrenAscend(t, h, lo, hi, m, 0, i);
    ChildrenAscend(t, h, lo, hi, m, i + 1, |cs|);
    assert cs[0..i] == cs[..i] && cs[i + 1..|cs|] == cs[i + 1..];
    FlatChild(t, i);
  }

  // ---- insert

  function Spliced<T>(s: seq<T>, i: nat, x: T): (r: seq<T>)
    requires i <= |s|
    ensures |r| == |s| + 1
  {
    s[..i] + [x] + s[i..]
  }

  ghost function SplitLeaf<V>(keys: seq<int>, values: seq<V>): Insertion<V>
    requires |keys| == |values| >= 2
  {
    var mid := (|keys| + 1) / 2;
    Splits(Leaf(keys[..mid], values[..mid]), keys[mid], Leaf(keys[mid..], values[mid..]))
  }

  ghost function SplitInner<V>(keys: seq<int>, children: seq<Tree<V>>): Insertion<V>
    requires |children| == |keys| + 1 && |keys| >= 2
  {
    var mid := |keys| / 2;
    Splits(Inner(keys[..mid], children[..mid + 1]), keys[mid], Inner(keys[mid + 1..], children[mid + 1..]))
  }

  ghost function InsertInto<V>(t: Tree<V>, h: nat, key: int, value: V, order: int): Insertion<V>
    requires Formed(t, h) && order >= 2
    decreases h
  {
    match t
    case Leaf(keys, values) =>
      var i := LowerBound(keys, key);
      if i < |keys| && keys[i] == key then Fits(Leaf(keys, values[i := value]))
      else
        var keys', values' := Spliced(keys, i, key), Spliced(values, i, value);
        if |keys'| > order - 1 then SplitLeaf(keys', values') else Fits(Leaf(keys', values'))
    case Inner(keys, children) =>
      var i := UpperBound(keys, key);
      AfterChild(t, i, InsertInto(children[i], h - 1, key, value, order), order)
  }

  /** What a node becomes when an insertion below its child i is done. */
  ghost function AfterChild<V>(t: Tree<V>, i: nat, below: Insertion<V>, order: int): Insertion<V>
    requires t.Inner? && |t.children| == |t.keys| + 1 && i < |t.children| && order >= 2
  {
    match below
    case Fits(c) => Fits(Inner(t.keys, t.children[i := c]))
    case Splits(l, s, r) =>
      var u := WithHalves(t, i, l, s, r);
      if |u.keys| > order - 1 then SplitInner(u.keys, u.children) else Fits(u)
  }

  /** A correct outcome of inserting below a node that covers lo..hi. */
  ghost predicate InsertedOk<V>(r: Insertion<V>, h: nat, lo: int, hi: int, m: nat, es: Entries<V>) {
    match r
    case Fits(t) => Ok(t, h, lo, hi, m) && EntriesOf(t) == es
    case Splits(l, s, r) =>
      lo < s < hi && Ok(l, h, lo, s, m) && Ok(r, h, s, hi, m) && EntriesOf(l) + EntriesOf(r) == es
  }

  /** Cutting a leaf before position n leaves two leaves in order. */
  lemma {:induction false} CutLeaf<V>(t: Tree<V>, lo: int, hi: int, m: nat, n: nat)
    requires t.Leaf? && Ordered(t, 0, lo, hi, m) && 0 < n < |t.keys|
    ensures lo < t.keys[n] < hi
    ensures Ordered(Leaf(t.keys[..n], t.values[..n]), 0, lo, t.keys[n], m)
    ensures Ordered(Leaf(t.keys[n..], t.values[n..]), 0, t.keys[n], hi, m)
    ensures Zip(t.keys[..n], t.values[..n]) + Zip(t.keys[n..], t.values[n..]) == EntriesOf(t)
  {
    assert t.keys[0] < t.keys[n];
    assert Zip(t.keys[..n], t.values[..n]) + Zip(t.keys[n..], t.values[n..]) == Zip(t.keys, t.values);
    hide Zip;
  }

  lemma {:induction false} SplitLeafOk<V>(t: Tree<V>, lo: int, hi: int, m: nat)
    requires t.Leaf? && Ordered(t, 0, lo, hi, m) && |t.keys| == m + 1 >= 2 && |t.values| == m + 1
    ensures InsertedOk(SplitLeaf(t.keys, t.values), 0, lo, hi, m, EntriesOf(t))
  {
    hide Ordered, Zip;
    CutLeaf(t, lo, hi, m, (m + 2) / 2);
  }

  lemma {:induction false} SliceOrdered<V>(t: Tree<V>, h: nat, lo: int, hi: int, m: nat, i: nat, j: nat)
    requires Ordered(t, h, lo, hi, m) && t.Inner? && i <= j <= |t.keys|
    ensures Ordered(Inner(t.keys[i..j], t.children[i..j + 1]), h, LoAt(t.keys, i, lo), HiAt(t.keys, j, hi), m)
  {
    var u := Inner(t.keys[i..j], t.children[i..j + 1]);
    forall n | 0 <= n < |u.children|
      ensures Ok(u.children[n], h - 1, LoAt(u.keys, n, LoAt(t.keys, i, lo)), HiAt(u.keys, n, HiAt(t.keys, j, hi)), m)
    {
      assert u.children[n] == t.children[i + n];
      assert Ok(t.children[i + n], h - 1, LoAt(t.keys, i + n, lo), HiAt(t.keys, i + n, hi), m);
    }
  }

  lemma {:induction false} FirstPart<V>(t: Tree<V>, h: nat, lo: int, hi: int, m: nat, j: nat)
    requires Ordered(t, h, lo, hi, m) && t.Inner? && j < |t.keys|
    ensures lo < t.keys[j] < hi
    ensures Ordered(Inner(t.keys[..j], t.children[..j + 1]), h, lo, t.keys[j], m)
  {
    SliceOrdered(t, h, lo, hi, m, 0, j);
    assert t.keys[0..j] == t.keys[..j] && t.children[0..j + 1] == t.children[..j + 1];
  }

  lemma {:induction false} LastPart<V>(t: Tree<V>, h: nat, lo: int, hi: int, m: nat, j: nat)
    requires Ordered(t, h, lo, hi, m) && t.Inner? && j < |t.keys|
    ensures Ordered(Inner(t.keys[j + 1..], t.children[j + 1..]), h, t.keys[j], hi, m)
  {
    var n := |t.keys|;
    SliceOrdered(t, h, lo, hi, m, j + 1, n);
    assert t.keys[j + 1..n] == t.keys[j + 1..] && t.children[j + 1..n + 1] == t.children[j + 1..];
  }

  lemma {:induction false} SplitAt<V>(ts: seq<Tree<V>>, i: nat)
    requires i <= |ts|
    ensures Flat(ts[..i]) + Flat(ts[i..]) == Flat(ts)
  {
    FlatAppend(ts[..i], ts[i..]);
    assert ts[..i] + ts[i..] == ts;
  }

  /** Cutting a node at separator n leaves two nodes in order; the separator goes up. */
  lemma {:induction false} CutInner<V>(t: Tree<V>, h: nat, lo: int, hi: int, m: nat, n: nat)
    requires t.Inner? && Ordered(t, h, lo, hi, m) && n < |t.keys|
    ensures |t.children| == |t.keys| + 1 && lo < t.keys[n] < hi
    ensures Ordered(Inner(t.keys[..n], t.children[..n + 1]), h, lo, t.keys[n], m)
    ensures Ordered(Inner(t.keys[n + 1..], t.children[n + 1..]), h, t.keys[n], hi, m)
    ensures Flat(t.children[..n + 1]) + Flat(t.children[n + 1..]) == EntriesOf(t)
  {
    FirstPart(t, h, lo, hi, m, n);
    LastPart(t, h, lo, hi, m, n);
    SplitAt(t.children, n + 1);
  }

  lemma {:induction false} SplitInnerOk<V>(t: Tree<V>, h: nat, lo: int, hi: int, m: nat)
    requires Ordered(t, h, lo, hi, m) && t.Inner? && |t.keys| == m + 1 >= 2 && |t.children| == m + 2
    ensures InsertedOk(SplitInner(t.keys, t.children), h, lo, hi, m, EntriesOf(t))
  {
    hide Ordered, Flat;
    CutInner(t, h, lo, hi, m, |t.keys| / 2);
  }

  lemma {:induction false} ZipCons<V>(keys: seq<int>, values: seq<V>)
    requires |keys| == |values| > 0
    ensures Zip(keys, values) == [(keys[0], values[0])] + Zip(keys[1..], values[1..])
    ensures Zip(keys, values)[1..] == Zip(keys[1..], values[1..])
  {
  }

  lemma {:induction false} SplicedTail<T>(s: seq<T>, i: nat, x: T)
    requires 0 < i <= |s|
    ensures Spliced(s, i, x) != [] && Spliced(s, i, x)[0] == s[0] && Spliced(s, i, x)[1..] == Spliced(s[1..], i - 1, x)
  {
  }

  lemma {:induction false} SplicedFront<T>(s: seq<T>, x: T)
    ensures Spliced(s, 0, x) == [x] + s
  {
  }

  lemma {:induction false} PutZipNew<V>(keys: seq<int>, values: seq<V>, key: int, value: V)
    requires |keys| == |values| && StrictlySorted(keys)
    requires var i := LowerBound(keys, key); i == |keys| || keys[i] != key
    ensures var i := LowerBound(keys, key);
            Put(Zip(keys, values), key, value) == Zip(Spliced(keys, i, key), Spliced(values, i, value))
  {
    hide Spliced, Zip;
    var i := LowerBound(keys, key);
    if i == 0 {
      SplicedFront(keys, key);
      SplicedFront(values, value);
      ZipCons([key] + keys, [value] + values);
      assert ([key] + keys)[1..] == keys && ([value] + values)[1..] == values;
      if keys != [] { ZipCons(keys, values); }
    } else {
      SplicedTail(keys, i, key);
      SplicedTail(values, i, value);
      ZipCons(keys, values);
      ZipCons(Spliced(keys, i, key), Spliced(values, i, value));
      PutZipNew(keys[1..], values[1..], key, value);
    }
  }

  lemma {:induction false} PutZipOld<V>(keys: seq<int>, values: seq<V>, key: int, value: V)
    requires |keys| == |values| && StrictlySorted(keys)
    requires var i := LowerBound(keys, key); i < |keys| && keys[i] == key
    ensures Put(Zip(keys, values), key, value) == Zip(keys, values[LowerBound(keys, key) := value])
  {
    hide Zip;
    var i := LowerBound(keys, key);
    ZipCons(keys, values);
    ZipCons(keys, values[i := value]);
    if i == 0 {
      assert values[0 := value][1..] == values[1..];
    } else {
      assert values[i := value][1..] == values[1..][i - 1 := value];
      PutZipOld(keys[1..], values[1..], key, value);
    }
  }

  lemma {:induction false} SplicedSorted(keys: seq<int>, key: int, i: nat)
    requires StrictlySorted(keys) && i <= |keys|
    requires i > 0 ==> keys[i - 1] < key
    requires i < |keys| ==> key < keys[i]
    ensures StrictlySorted(Spliced(keys, i, key))
  {
    var ks := Spliced(keys, i, key);
    forall a, b | 0 <= a < b < |ks| ensures ks[a] < ks[b] {
      assert ks[i] == key;
      assert a < i ==> ks[a] == keys[a];
      assert a > i ==> ks[a] == keys[a - 1];
      assert b < i ==> ks[b] == keys[b];
      assert b > i ==> ks[b] == keys[b - 1];
    }
  }

  lemma {:induction false} LeafSplicedOk<V>(t: Tree<V>, key: int, value: V, lo: int, hi: int, m: nat)
    requires t.Leaf? && Ordered(t, 0, lo, hi, m) && lo <= key < hi
    requires var i := LowerBound(t.keys, key); i == |t.keys| || t.keys[i] != key
    ensures var i := LowerBound(t.keys, key);
            Ordered(Leaf(Spliced(t.keys, i, key), Spliced(t.values, i, value)), 0, lo, hi, m)
  {
    var i := LowerBound(t.keys, key);
    SplicedSorted(t.keys, key, i);
  }

  lemma {:induction false} LeafUpdateOk<V>(t: Tree<V>, key: int, value: V, lo: int, hi: int, order: int)
    requires t.Leaf? && order >= 2 && Ok(t, 0, lo, hi, order - 1) && Formed(t, 0)
    requires var i := LowerBound(t.keys, key); i < |t.keys| && t.keys[i] == key
    ensures InsertedOk(InsertInto(t, 0, key, value, order), 0, lo, hi, order - 1, Put(EntriesOf(t), key, value))
  {
    assert StrictlySorted(t.keys);
    hide Put, StrictlySorted;
    PutZipOld(t.keys, t.values, key, value);
    hide Zip, LowerBound;
  }

  lemma {:induction false} LeafGrowOk<V>(t: Tree<V>, key: int, value: V, lo: int, hi: int, order: int)
    requires t.Leaf? && order >= 2 && Ok(t, 0, lo, hi, order - 1) && Formed(t, 0) && lo <= key < hi
    requires var i := LowerBound(t.keys, key); i == |t.keys| || t.keys[i] != key
    ensures InsertedOk(InsertInto(t, 0, key, value, order), 0, lo, hi, order - 1, Put(EntriesOf(t), key, value))
  {
    var i := LowerBound(t.keys, key);
    assert StrictlySorted(t.keys);
    hide Spliced, Put, Zip, LowerBound, SplitLeaf, Ordered, StrictlySorted;
    PutZipNew(t.keys, t.values, key, value);
    LeafSplicedOk(t, key, value, lo, hi, order - 1);
    var u := Leaf(Spliced(t.keys, i, key), Spliced(t.values, i, value));
    if |u.keys| > order - 1 {
      SplitLeafOk(u, lo, hi, order - 1);
    }
  }

  /** Putting a new child in place of child i. */
  lemma {:induction false} ReplaceChildOk<V>(t: Tree<V>, h: nat, lo: int, hi: int, m: nat, i: nat, c: Tree<V>)
    requires Ordered(t, h, lo, hi, m) && t.Inner? && i < |t.children|
    requires Ok(c, h - 1, LoAt(t.keys, i, lo), HiAt(t.keys, i, hi), m)
    ensures Ordered(Inner(t.keys, t.children[i := c]), h, lo, hi, m)
    ensures EntriesOf(Inner(t.keys, t.children[i := c])) == Flat(t.children[..i]) + EntriesOf(c) + Flat(t.children[i + 1..])
  {
    var cs := t.children[i := c];
    assert cs == t.children[..i] + [c] + t.children[i + 1..];
    FlatAround(t.children[..i], [c], t.children[i + 1..]);
    FlatOne(c);
  }

  /** Putting two halves and their separator in place of child i. */
  ghost function WithHalves<V>(t: Tree<V>, i: nat, l: Tree<V>, s: int, r: Tree<V>): (u: Tree<V>)
    requires t.Inner? && |t.children| == |t.keys| + 1 && i < |t.children|
    ensures u.Inner? && |u.children| == |u.keys| + 1 == |t.children| + 1
  {
    Inner(Spliced(t.keys, i, s), t.children[..i] + [l, r] + t.children[i + 1..])
  }

  lemma {:induction false} HalvesEntries<V>(t: Tree<V>, i: nat, l: Tree<V>, s: int, r: Tree<V>)
    requires t.Inner? && |t.children| == |t.keys| + 1 && i < |t.children|
    ensures EntriesOf(WithHalves(t, i, l, s, r))
         == Flat(t.children[..i]) + (EntriesOf(l) + EntriesOf(r)) + Flat(t.children[i + 1..])
  {
    FlatAround(t.children[..i], [l, r], t.children[i + 1..]);
    FlatTwo(l, r);
  }

  lemma {:induction false} HalvesOrdered<V>(t: Tree<V>, h: nat, lo: int, hi: int, m: nat, i: nat, l: Tree<V>, s: int, r: Tree<V>)
    requires Ordered(t, h, lo, hi, m) && t.Inner? && i < |t.children|
    requires LoAt(t.keys, i, lo) < s < HiAt(t.keys, i, hi)
    requires Ok(l, h - 1, LoAt(t.keys, i, lo), s, m) && Ok(r, h - 1, s, HiAt(t.keys, i, hi), m)
    ensures Ordered(WithHalves(t, i, l, s, r), h, lo, hi, m)
  {
    var u := WithHalves(t, i, l, s, r);
    HalvesKeys(t, h, lo, hi, m, i, s);
    hide LoAt, HiAt, Ok;
    forall n | 0 <= n < |u.children|
      ensures Ok(u.children[n], h - 1, LoAt(u.keys, n, lo), HiAt(u.keys, n, hi), m)
    {
      HalvesBounds(t.keys, s, i, lo, hi, n);
    }
  }

  lemma {:induction false} HalvesKeys<V>(t: Tree<V>, h: nat, lo: int, hi: int, m: nat, i: nat, s: int)
    requires Ordered(t, h, lo, hi, m) && t.Inner? && i < |t.children| && LoAt(t.keys, i, lo) < s < HiAt(t.keys, i, hi)
    ensures h > 0 && |t.children| == |t.keys| + 1 && StrictlySorted(Spliced(t.keys, i, s))
    ensures forall j :: 0 <= j <= |t.keys| ==> lo < Spliced(t.keys, i, s)[j] < hi
  {
    SplicedSorted(t.keys, s, i);
    hide Ok;
  }

  /** The bounds of the children after a key is put in. */
  lemma {:induction false} HalvesBounds(keys: seq<int>, s: int, i: nat, lo: int, hi: int, n: nat)
    requires i <= |keys| && n <= |keys| + 1
    ensures var ks := Spliced(keys, i, s);
            && LoAt(ks, n, lo) == (if n <= i then LoAt(keys, n, lo) else if n == i + 1 then s else LoAt(keys, n - 1, lo))
            && HiAt(ks, n, hi) == (if n < i then HiAt(keys, n, hi) else if n == i then s else HiAt(keys, n - 1, hi))
  {
  }


  lemma {:induction false} InnerInsertOk<V>(t: Tree<V>, h: nat, lo: int, hi: int, order: int, i: nat, below: Insertion<V>, es: Entries<V>)
    requires order >= 2 && Ok(t, h, lo, hi, order - 1) && t.Inner? && i < |t.children| == |t.keys| + 1
    requires InsertedOk(below, h - 1, LoAt(t.keys, i, lo), HiAt(t.keys, i, hi), order - 1, es)
    ensures InsertedOk(AfterChild(t, i, below, order), h, lo, hi, order - 1,
                       Flat(t.children[..i]) + es + Flat(t.children[i + 1..]))
  {
    hide WithHalves, Ordered, EntriesOf, Flat;
    match below
    case Fits(c) => ReplaceChildOk(t, h, lo, hi, order - 1, i, c);
    case Splits(l, s, r) =>
      HalvesOrdered(t, h, lo, hi, order - 1, i, l, s, r);
      HalvesEntries(t, i, l, s, r);
      var u := WithHalves(t, i, l, s, r);
      if |u.keys| > order - 1 {
        SplitInnerOk(u, h, lo, hi, order - 1);
      }
  }

  lemma {:induction false} InsertIntoOk<V>(t: Tree<V>, h: nat, key: int, value: V, lo: int, hi: int, order: int)
    requires order >= 2 && Ok(t, h, lo, hi, order - 1) && lo <= key < hi
    ensures Formed(t, h)
    ensures InsertedOk(InsertInto(t, h, key, value, order), h, lo, hi, order - 1, Put(EntriesOf(t), key, value))
    decreases h
  {
    hide Flat, EntriesOf, Put, Del, Find, InsertedOk, AfterChild, UpperBound, LowerBound, LoAt, HiAt, SplitLeaf, Spliced;
    OrderedIsFormed(t, h, lo, hi, order - 1);
    if t.Leaf? {
      var i := LowerBound(t.keys, key);
      if i < |t.keys| && t.keys[i] == key {
        LeafUpdateOk(t, key, value, lo, hi, order);
      } else {
        LeafGrowOk(t, key, value, lo, hi, order);
      }
    } else {
      var i := UpperBound(t.keys, key);
      var a, b := Flat(t.children[..i]), Flat(t.children[i + 1..]);
      ChildHoldsKey(t, h, lo, hi, order - 1, key, i);
      InsertIntoOk(t.children[i], h - 1, key, value, LoAt(t.keys, i, lo), HiAt(t.keys, i, hi), order);
      PutInMiddle(a, EntriesOf(t.children[i]), b, key, value);
      var es := Put(EntriesOf(t.children[i]), key, value);
      InnerInsertOk(t, h, lo, hi, order, i, InsertInto(t.children[i], h - 1, key, value, order), es);
    }
  }

  // ---- delete

  /** Two neighbouring children and their separator, as a rebalancing leaves them. */
  datatype Pair<V> =
    | Two(left: Tree<V>, key: int, right: Tree<V>)
    | One(tree: Tree<V>)

  /** Moves the last item of the left node to the front of the right one. */
  ghost function ShiftRight<V>(l: Tree<V>, s: int, r: Tree<V>, h: nat): Pair<V>
    requires Formed(l, h) && Formed(r, h) && |l.keys| >= 1
  {
    var n := |l.keys| - 1;
    if l.Leaf? then
      Two(Leaf(l.keys[..n], l.values[..n]), l.keys[n], Leaf([l.keys[n]] + r.keys, [l.values[n]] + r.values))
    else
      Two(Inner(l.keys[..n], l.children[..n + 1]), l.keys[n],
          Inner([s] + r.keys, [l.children[n + 1]] + r.children))
  }

  /** Moves the first item of the right node to the end of the left one. */
  ghost function ShiftLeft<V>(l: Tree<V>, s: int, r: Tree<V>, h: nat): Pair<V>
    requires Formed(l, h) && Formed(r, h) && |r.keys| >= 2
  {
    if l.Leaf? then
      Two(Leaf(l.keys + [r.keys[0]], l.values + [r.values[0]]), r.keys[1], Leaf(r.keys[1..], r.values[1..]))
    else
      Two(Inner(l.keys + [s], l.children + [r.children[0]]), r.keys[0], Inner(r.keys[1..], r.children[1..]))
  }

  ghost function Merge<V>(l: Tree<V>, s: int, r: Tree<V>, h: nat): Pair<V>
    requires Formed(l, h) && Formed(r, h)
  {
    if l.Leaf? then One(Leaf(l.keys + r.keys, l.values + r.values))
    else One(Inner(l.keys + [s] + r.keys, l.children + r.children))
  }

  /** The parent after its children j and j + 1 became the pair p. */
  ghost function WithPair<V>(t: Tree<V>, j: nat, p: Pair<V>): (u: Tree<V>)
    requires t.Inner? && |t.children| == |t.keys| + 1 && j < |t.keys|
    ensures u.Inner? && |u.children| == |u.keys| + 1
  {
    match p
    case Two(l, s, r) => Inner(t.keys[j := s], t.children[j := l][j + 1 := r])
    case One(c) => Inner(Without(t.keys, j), t.children[..j] + [c] + t.children[j + 2..])
  }

  /** Borrow from the left sibling, else from the right, else merge, else leave an only child alone. */
  ghost function Rebalance<V>(t: Tree<V>, h: nat, i: nat, minKeys: nat): Tree<V>
    requires Formed(t, h) && t.Inner? && i < |t.children| && minKeys >= 1
  {
    var cs := t.children;
    if i > 0 && |cs[i - 1].keys| > minKeys then
      WithPair(t, i - 1, ShiftRight(cs[i - 1], t.keys[i - 1], cs[i], h - 1))
    else if i + 1 < |cs| && |cs[i + 1].keys| > minKeys then
      WithPair(t, i, ShiftLeft(cs[i], t.keys[i], cs[i + 1], h - 1))
    else if i > 0 then WithPair(t, i - 1, Merge(cs[i - 1], t.keys[i - 1], cs[i], h - 1))
    else if i + 1 < |cs| then WithPair(t, i, Merge(cs[i], t.keys[i], cs[i + 1], h - 1))
    else t
  }

  ghost predicate Underfull<V>(t: Tree<V>, required: nat) {
    match t
    case Leaf(keys, _) => |keys| < required
    case Inner(_, children) => |children| < required
  }

  ghost function Required(atRoot: bool, minKeys: nat): nat {
    if atRoot then 1 else minKeys
  }

  lemma {:induction false} ReplaceFormed<V>(t: Tree<V>, h: nat, i: nat, c: Tree<V>)
    requires Formed(t, h) && t.Inner? && i < |t.children| && Formed(c, h - 1)
    ensures Formed(Inner(t.keys, t.children[i := c]), h)
  {
  }

  /** What a node becomes when its child i has become c by a deletion. */
  ghost function AfterDelete<V>(t: Tree<V>, h: nat, i: nat, c: Tree<V>, atRoot: bool, minKeys: nat): Tree<V>
    requires Formed(t, h) && t.Inner? && i < |t.children| && Formed(c, h - 1) && minKeys >= 1
  {
    var u := Inner(t.keys, t.children[i := c]);
    if Underfull(c, Required(atRoot, minKeys)) then ReplaceFormed(t, h, i, c); Rebalance(u, h, i, minKeys) else u
  }

  lemma {:induction false} PairFormed<V>(t: Tree<V>, h: nat, j: nat, p: Pair<V>)
    requires Formed(t, h) && t.Inner? && j < |t.keys|
    requires p.Two? ==> Formed(p.left, h - 1) && Formed(p.right, h - 1)
    requires p.One? ==> Formed(p.tree, h - 1)
    ensures Formed(WithPair(t, j, p), h)
  {
  }

  lemma {:induction false} RebalanceFormed<V>(t: Tree<V>, h: nat, i: nat, minKeys: nat)
    requires Formed(t, h) && t.Inner? && i < |t.children| && minKeys >= 1
    ensures Formed(Rebalance(t, h, i, minKeys), h)
  {
    hide WithPair;
    var cs := t.children;
    if i > 0 && |cs[i - 1].keys| > minKeys {
      PairFormed(t, h, i - 1, ShiftRight(cs[i - 1], t.keys[i - 1], cs[i], h - 1));
    } else if i + 1 < |cs| && |cs[i + 1].keys| > minKeys {
      PairFormed(t, h, i, ShiftLeft(cs[i], t.keys[i], cs[i + 1], h - 1));
    } else if i > 0 {
      PairFormed(t, h, i - 1, Merge(cs[i - 1], t.keys[i - 1], cs[i], h - 1));
    } else if i + 1 < |cs| {
      PairFormed(t, h, i, Merge(cs[i], t.keys[i], cs[i + 1], h - 1));
    }
  }

  ghost function DeleteFrom<V>(t: Tree<V>, h: nat, key: int, atRoot: bool, minKeys: nat): (r: Option<Tree<V>>)
    requires Formed(t, h) && minKeys >= 1
    ensures r.Some? ==> Formed(r.value, h)
    decreases h
  {
    match t
    case Leaf(keys, values) =>
      var i := LowerBound(keys, key);
      if i >= |keys| || keys[i] != key then None
      else Some(Leaf(Without(keys, i), Without(values, i)))
    case Inner(keys, children) =>
      var i := UpperBound(keys, key);
      match DeleteFrom(children[i], h - 1, key, false, minKeys)
      case None => None
      case Some(c) =>
        ReplaceFormed(t, h, i, c);
        RebalanceFormed(Inner(keys, children[i := c]), h, i, minKeys);
        Some(AfterDelete(t, h, i, c, atRoot, minKeys))
  }

  // ---- rebalancing moves items across one separator and changes nothing else

  ghost predicate PairOk<V>(p: Pair<V>, h: nat, lo: int, hi: int, m: nat, es: Entries<V>) {
    match p
    case Two(l, s, r) =>
      lo < s < hi && Ok(l, h, lo, s, m) && Ok(r, h, s, hi, m) && EntriesOf(l) + EntriesOf(r) == es
    case One(c) => Ok(c, h, lo, hi, m) && EntriesOf(c) == es
  }

  lemma {:induction false} JoinLeaves<V>(l: Tree<V>, s: int, r: Tree<V>, lo: int, hi: int, m: nat)
    requires l.Leaf? && r.Leaf? && Ordered(l, 0, lo, s, m) && Ordered(r, 0, s, hi, m) && lo < s < hi
    ensures var t := Leaf(l.keys + r.keys, l.values + r.values);
            Ordered(t, 0, lo, hi, m) && EntriesOf(t) == EntriesOf(l) + EntriesOf(r)
  {
    var t := Leaf(l.keys + r.keys, l.values + r.values);
    assert Zip(t.keys, t.values) == Zip(l.keys, l.values) + Zip(r.keys, r.values);
    hide Zip;
  }

  lemma {:induction false} JoinInners<V>(l: Tree<V>, s: int, r: Tree<V>, h: nat, lo: int, hi: int, m: nat)
    requires l.Inner? && r.Inner? && Ordered(l, h, lo, s, m) && Ordered(r, h, s, hi, m) && lo < s < hi
    ensures var t := Inner(l.keys + [s] + r.keys, l.children + r.children);
            Ordered(t, h, lo, hi, m) && EntriesOf(t) == EntriesOf(l) + EntriesOf(r)
  {
    var t := Inner(l.keys + [s] + r.keys, l.children + r.children);
    FlatAppend(l.children, r.children);
    var n := |l.children|;
    forall i | 0 <= i < |t.children| ensures Ok(t.children[i], h - 1, LoAt(t.keys, i, lo), HiAt(t.keys, i, hi), m) {
      if i < n {
        assert Ok(l.children[i], h - 1, LoAt(l.keys, i, lo), HiAt(l.keys, i, s), m);
      } else {
        assert Ok(r.children[i - n], h - 1, LoAt(r.keys, i - n, s), HiAt(r.keys, i - n, hi), m);
      }
    }
    hide Flat;
  }

  lemma {:induction false} ShiftRightLeafOk<V>(l: Tree<V>, s: int, r: Tree<V>, lo: int, hi: int, m: nat)
    requires l.Leaf? && r.Leaf? && Formed(l, 0) && Formed(r, 0)
    requires Ok(l, 0, lo, s, m) && Ok(r, 0, s, hi, m) && lo < s < hi
    requires |l.keys| >= 2 && |r.keys| < m
    ensures PairOk(ShiftRight(l, s, r, 0), 0, lo, hi, m, EntriesOf(l) + EntriesOf(r))
  {
    hide Ordered, Zip;
    JoinLeaves(l, s, r, lo, hi, m);
    var n, t := |l.keys| - 1, Leaf(l.keys + r.keys, l.values + r.values);
    CutLeaf(t, lo, hi, m, n);
    assert t.keys[..n] == l.keys[..n] && t.keys[n..] == [l.keys[n]] + r.keys;
    assert t.values[..n] == l.values[..n] && t.values[n..] == [l.values[n]] + r.values;
  }

  lemma {:induction false} ShiftRightInnerOk<V>(l: Tree<V>, s: int, r: Tree<V>, h: nat, lo: int, hi: int, m: nat)
    requires l.Inner? && r.Inner? && Formed(l, h) && Formed(r, h)
    requires Ok(l, h, lo, s, m) && Ok(r, h, s, hi, m) && lo < s < hi
    requires |l.keys| >= 2 && |r.keys| < m
    ensures PairOk(ShiftRight(l, s, r, h), h, lo, hi, m, EntriesOf(l) + EntriesOf(r))
  {
    hide Ordered, Flat;
    JoinInners(l, s, r, h, lo, hi, m);
    var n, t := |l.keys| - 1, Inner(l.keys + [s] + r.keys, l.children + r.children);
    CutInner(t, h, lo, hi, m, n);
    assert t.keys[..n] == l.keys[..n] && t.keys[n + 1..] == [s] + r.keys;
    assert t.children[..n + 1] == l.children[..n + 1] && t.children[n + 1..] == [l.children[n + 1]] + r.children;
  }

  lemma {:induction false} ShiftLeftLeafOk<V>(l: Tree<V>, s: int, r: Tree<V>, lo: int, hi: int, m: nat)
    requires l.Leaf? && r.Leaf? && Formed(l, 0) && Formed(r, 0)
    requires Ok(l, 0, lo, s, m) && Ok(r, 0, s, hi, m) && lo < s < hi
    requires |r.keys| >= 2 && |l.keys| < m
    ensures PairOk(ShiftLeft(l, s, r, 0), 0, lo, hi, m, EntriesOf(l) + EntriesOf(r))
  {
    hide Ordered, Zip;
    JoinLeaves(l, s, r, lo, hi, m);
    var n, t := |l.keys| + 1, Leaf(l.keys + r.keys, l.values + r.values);
    CutLeaf(t, lo, hi, m, n);
    assert t.keys[..n] == l.keys + [r.keys[0]] && t.keys[n..] == r.keys[1..];
    assert t.values[..n] == l.values + [r.values[0]] && t.values[n..] == r.values[1..];
  }

  lemma {:induction false} ShiftLeftInnerOk<V>(l: Tree<V>, s: int, r: Tree<V>, h: nat, lo: int, hi: int, m: nat)
    requires l.Inner? && r.Inner? && Formed(l, h) && Formed(r, h)
    requires Ok(l, h, lo, s, m) && Ok(r, h, s, hi, m) && lo < s < hi
    requires |r.keys| >= 2 && |l.keys| < m
    ensures PairOk(ShiftLeft(l, s, r, h), h, lo, hi, m, EntriesOf(l) + EntriesOf(r))
  {
    hide Ordered, Flat;
    JoinInners(l, s, r, h, lo, hi, m);
    var n, t := |l.keys| + 1, Inner(l.keys + [s] + r.keys, l.children + r.children);
    CutInner(t, h, lo, hi, m, n);
    assert t.keys[..n] == l.keys + [s] && t.keys[n + 1..] == r.keys[1..];
    assert t.children[..n + 1] == l.children + [r.children[0]] && t.children[n + 1..] == r.children[1..];
  }

  lemma {:induction false} ShiftRightOk<V>(l: Tree<V>, s: int, r: Tree<V>, h: nat, lo: int, hi: int, m: nat)
    requires Formed(l, h) && Formed(r, h) && Ok(l, h, lo, s, m) && Ok(r, h, s, hi, m) && lo < s < hi
    requires |l.keys| >= 2 && |r.keys| < m
    ensures PairOk(ShiftRight(l, s, r, h), h, lo, hi, m, EntriesOf(l) + EntriesOf(r))
  {
    hide Ordered, EntriesOf, ShiftRight, PairOk;
    if l.Leaf? { ShiftRightLeafOk(l, s, r, lo, hi, m); } else { ShiftRightInnerOk(l, s, r, h, lo, hi, m); }
  }

  lemma {:induction false} ShiftLeftOk<V>(l: Tree<V>, s: int, r: Tree<V>, h: nat, lo: int, hi: int, m: nat)
    requires Formed(l, h) && Formed(r, h) && Ok(l, h, lo, s, m) && Ok(r, h, s, hi, m) && lo < s < hi
    requires |r.keys| >= 2 && |l.keys| < m
    ensures PairOk(ShiftLeft(l, s, r, h), h, lo, hi, m, EntriesOf(l) + EntriesOf(r))
  {
    hide Ordered, EntriesOf, ShiftLeft, PairOk;
    if l.Leaf? { ShiftLeftLeafOk(l, s, r, lo, hi, m); } else { ShiftLeftInnerOk(l, s, r, h, lo, hi, m); }
  }

  lemma {:induction false} MergeOk<V>(l: Tree<V>, s: int, r: Tree<V>, h: nat, lo: int, hi: int, m: nat)
    requires Ok(l, h, lo, s, m) && Ok(r, h, s, hi, m) && lo < s < hi && Formed(l, h) && Formed(r, h)
    requires |l.keys| + |r.keys| + (if l.Leaf? then 0 else 1) <= m
    ensures PairOk(Merge(l, s, r, h), h, lo, hi, m, EntriesOf(l) + EntriesOf(r))
  {
    if l.Leaf? {
      JoinLeaves(l, s, r, lo, hi, m);
    } else {
      JoinInners(l, s, r, h, lo, hi, m);
    }
    hide Ordered, Flat, Zip;
  }

  lemma {:induction false} WithTwoKeys<V>(t: Tree<V>, h: nat, lo: int, hi: int, m: nat, j: nat, s: int)
    requires Ordered(t, h, lo, hi, m) && t.Inner? && j < |t.keys| && LoAt(t.keys, j, lo) < s < HiAt(t.keys, j + 1, hi)
    ensures h > 0 && |t.children| == |t.keys| + 1
    ensures var ks := t.keys[j := s]; StrictlySorted(ks) && forall i :: 0 <= i < |ks| ==> lo < ks[i] < hi
  {
    hide Ok;
  }

  lemma {:induction false} WithTwoBounds(keys: seq<int>, j: nat, s: int, lo: int, hi: int, i: nat)
    requires j < |keys| && i <= |keys|
    ensures LoAt(keys[j := s], i, lo) == if i == j + 1 then s else LoAt(keys, i, lo)
    ensures HiAt(keys[j := s], i, hi) == if i == j then s else HiAt(keys, i, hi)
  {
  }

  lemma {:induction false} WithTwoOrdered<V>(t: Tree<V>, h: nat, lo: int, hi: int, m: nat, j: nat, l: Tree<V>, s: int, r: Tree<V>)
    requires Ordered(t, h, lo, hi, m) && t.Inner? && j < |t.keys| && |t.children| == |t.keys| + 1
    requires LoAt(t.keys, j, lo) < s < HiAt(t.keys, j + 1, hi)
    requires Ok(l, h - 1, LoAt(t.keys, j, lo), s, m) && Ok(r, h - 1, s, HiAt(t.keys, j + 1, hi), m)
    ensures Ordered(WithPair(t, j, Two(l, s, r)), h, lo, hi, m)
  {
    var u := WithPair(t, j, Two(l, s, r));
    WithTwoKeys(t, h, lo, hi, m, j, s);
    hide LoAt, HiAt, Ok;
    forall i | 0 <= i < |u.children| ensures Ok(u.children[i], h - 1, LoAt(u.keys, i, lo), HiAt(u.keys, i, hi), m) {
      WithTwoBounds(t.keys, j, s, lo, hi, i);
    }
  }

  lemma {:induction false} WithOneKeys<V>(t: Tree<V>, h: nat, lo: int, hi: int, m: nat, j: nat)
    requires Ordered(t, h, lo, hi, m) && t.Inner? && j < |t.keys|
    ensures h > 0 && |t.children| == |t.keys| + 1 && StrictlySorted(Without(t.keys, j))
    ensures forall i :: 0 <= i < |t.keys| - 1 ==> lo < Without(t.keys, j)[i] < hi
  {
    hide Ok;
  }

  lemma {:induction false} WithOneBounds(keys: seq<int>, j: nat, lo: int, hi: int, i: nat)
    requires j < |keys| && i < |keys|
    ensures var ks := Without(keys, j);
            && LoAt(ks, i, lo) == LoAt(keys, if i <= j then i else i + 1, lo)
            && HiAt(ks, i, hi) == HiAt(keys, if i < j then i else i + 1, hi)
  {
  }

  lemma {:induction false} WithOneOrdered<V>(t: Tree<V>, h: nat, lo: int, hi: int, m: nat, j: nat, c: Tree<V>)
    requires Ordered(t, h, lo, hi, m) && t.Inner? && j < |t.keys| && |t.children| == |t.keys| + 1
    requires Ok(c, h - 1, LoAt(t.keys, j, lo), HiAt(t.keys, j + 1, hi), m)
    ensures Ordered(WithPair(t, j, One(c)), h, lo, hi, m)
  {
    var u := WithPair(t, j, One(c));
    WithOneKeys(t, h, lo, hi, m, j);
    hide LoAt, HiAt, Ok;
    forall i | 0 <= i < |u.children| ensures Ok(u.children[i], h - 1, LoAt(u.keys, i, lo), HiAt(u.keys, i, hi), m) {
      WithOneBounds(t.keys, j, lo, hi, i);
    }
  }

  ghost function PairEntries<V>(p: Pair<V>): Entries<V> {
    match p
    case Two(l, _, r) => EntriesOf(l) + EntriesOf(r)
    case One(c) => EntriesOf(c)
  }

  lemma {:induction false} WithPairEntries<V>(t: Tree<V>, j: nat, p: Pair<V>)
    requires t.Inner? && |t.children| == |t.keys| + 1 && j < |t.keys|
    ensures EntriesOf(t) == Flat(t.children[..j]) + (EntriesOf(t.children[j]) + EntriesOf(t.children[j + 1])) + Flat(t.children[j + 2..])
    ensures EntriesOf(WithPair(t, j, p)) == Flat(t.children[..j]) + PairEntries(p) + Flat(t.children[j + 2..])
  {
    var cs, a, b := t.children, t.children[..j], t.children[j + 2..];
    assert cs == a + [cs[j], cs[j + 1]] + b;
    FlatAround(a, [cs[j], cs[j + 1]], b);
    FlatTwo(cs[j], cs[j + 1]);
    match p
    case Two(l, s, r) =>
      assert cs[j := l][j + 1 := r] == a + [l, r] + b;
      FlatAround(a, [l, r], b);
      FlatTwo(l, r);
    case One(c) =>
      FlatAround(a, [c], b);
      FlatOne(c);
  }

  /** Replacing two neighbours by a pair with the same entries in the same range keeps the parent's order. */
  lemma {:induction false} WithPairOk<V>(t: Tree<V>, h: nat, lo: int, hi: int, m: nat, j: nat, p: Pair<V>)
    requires Ok(t, h, lo, hi, m) && t.Inner? && j < |t.keys| && |t.children| == |t.keys| + 1
    requires PairOk(p, h - 1, LoAt(t.keys, j, lo), HiAt(t.keys, j + 1, hi), m,
                    EntriesOf(t.children[j]) + EntriesOf(t.children[j + 1]))
    ensures Ok(WithPair(t, j, p), h, lo, hi, m) && EntriesOf(WithPair(t, j, p)) == EntriesOf(t)
  {
    WithPairEntries(t, j, p);
    match p {
      case Two(l, s, r) => WithTwoOrdered(t, h, lo, hi, m, j, l, s, r);
      case One(c) => WithOneOrdered(t, h, lo, hi, m, j, c);
    }
    hide Ordered, EntriesOf, Flat;
  }

  lemma {:induction false} RebalanceOk<V>(t: Tree<V>, h: nat, lo: int, hi: int, order: int, i: nat)
    requires order >= 2 && Ok(t, h, lo, hi, order - 1) && Formed(t, h) && t.Inner? && i < |t.children|
    requires Underfull(t.children[i], order / 2)
    ensures var u := Rebalance(t, h, i, order / 2); Ok(u, h, lo, hi, order - 1) && EntriesOf(u) == EntriesOf(t)
  {
    var m, k := order - 1, order / 2;
    var keys, cs := t.keys, t.children;
    assert Ok(cs[i], h - 1, LoAt(keys, i, lo), HiAt(keys, i, hi), m);
    assert i > 0 ==> Ok(cs[i - 1], h - 1, LoAt(keys, i - 1, lo), HiAt(keys, i - 1, hi), m);
    assert i + 1 < |cs| ==> Ok(cs[i + 1], h - 1, LoAt(keys, i + 1, lo), HiAt(keys, i + 1, hi), m);
    assert i > 0 ==> LoAt(keys, i - 1, lo) < keys[i - 1] < HiAt(keys, i, hi);
    assert i + 1 < |cs| ==> LoAt(keys, i, lo) < keys[i] < HiAt(keys, i + 1, hi);
    RebalanceByCase(t, h, lo, hi, order, i);
  }

  lemma {:induction false} RebalanceByCase<V>(t: Tree<V>, h: nat, lo: int, hi: int, order: int, i: nat)
    requires order >= 2 && Ok(t, h, lo, hi, order - 1) && Formed(t, h) && t.Inner? && i < |t.children|
    requires Underfull(t.children[i], order / 2)
    requires Ok(t.children[i], h - 1, LoAt(t.keys, i, lo), HiAt(t.keys, i, hi), order - 1)
    requires i > 0 ==> Ok(t.children[i - 1], h - 1, LoAt(t.keys, i - 1, lo), t.keys[i - 1], order - 1)
    requires i + 1 < |t.children| ==> Ok(t.children[i + 1], h - 1, t.keys[i], HiAt(t.keys, i + 1, hi), order - 1)
    requires i > 0 ==> LoAt(t.keys, i - 1, lo) < t.keys[i - 1] < HiAt(t.keys, i, hi)
    requires i + 1 < |t.children| ==> LoAt(t.keys, i, lo) < t.keys[i] < HiAt(t.keys, i + 1, hi)
    ensures var u := Rebalance(t, h, i, order / 2); Ok(u, h, lo, hi, order - 1) && EntriesOf(u) == EntriesOf(t)
  {
    hide Ordered, EntriesOf, WithPair, ShiftLeft, ShiftRight, Merge, PairOk;
    var m, k := order - 1, order / 2;
    var keys, cs := t.keys, t.children;
    if i > 0 && |cs[i - 1].keys| > k {
      ShiftRightOk(cs[i - 1], keys[i - 1], cs[i], h - 1, LoAt(keys, i - 1, lo), HiAt(keys, i, hi), m);
      WithPairOk(t, h, lo, hi, m, i - 1, ShiftRight(cs[i - 1], keys[i - 1], cs[i], h - 1));
    } else if i + 1 < |cs| && |cs[i + 1].keys| > k {
      ShiftLeftOk(cs[i], keys[i], cs[i + 1], h - 1, LoAt(keys, i, lo), HiAt(keys, i + 1, hi), m);
      WithPairOk(t, h, lo, hi, m, i, ShiftLeft(cs[i], keys[i], cs[i + 1], h - 1));
    } else if i > 0 {
      MergeOk(cs[i - 1], keys[i - 1], cs[i], h - 1, LoAt(keys, i - 1, lo), HiAt(keys, i, hi), m);
      WithPairOk(t, h, lo, hi, m, i - 1, Merge(cs[i - 1], keys[i - 1], cs[i], h - 1));
    } else if i + 1 < |cs| {
      MergeOk(cs[i], keys[i], cs[i + 1], h - 1, LoAt(keys, i, lo), HiAt(keys, i + 1, hi), m);
      WithPairOk(t, h, lo, hi, m, i, Merge(cs[i], keys[i], cs[i + 1], h - 1));
    }
  }

  // ---- deletion below a node

  function Without<T>(s: seq<T>, i: nat): (r: seq<T>)
    requires i < |s|
    ensures |r| == |s| - 1
  {
    s[..i] + s[i + 1..]
  }

  lemma {:induction false} WithoutTail<T>(s: seq<T>, i: nat)
    requires 0 < i < |s|
    ensures Without(s, i) != [] && Without(s, i)[0] == s[0] && Without(s, i)[1..] == Without(s[1..], i - 1)
  {
  }

  lemma {:induction false} DelZip<V>(keys: seq<int>, values: seq<V>, key: int)
    requires |keys| == |values| && StrictlySorted(keys)
    requires var i := LowerBound(keys, key); i < |keys| && keys[i] == key
    ensures var i := LowerBound(keys, key);
            Del(Zip(keys, values), key) == Zip(Without(keys, i), Without(values, i))
  {
    hide Zip;
    var i := LowerBound(keys, key);
    ZipCons(keys, values);
    if i == 0 {
      assert Without(keys, 0) == keys[1..] && Without(values, 0) == values[1..];
    } else {
      WithoutTail(keys, i);
      WithoutTail(values, i);
      ZipCons(Without(keys, i), Without(values, i));
      DelZip(keys[1..], values[1..], key);
    }
    hide Without;
  }

  /** The binary search finds a key of a leaf exactly when the leaf has an entry for it. */
  lemma {:induction false} FindZip<V>(keys: seq<int>, values: seq<V>, key: int)
    requires |keys| == |values| && StrictlySorted(keys)
    ensures var i := LowerBound(keys, key);
            Find(Zip(keys, values), key) == if i < |keys| && keys[i] == key then Some(values[i]) else None
  {
    hide Zip;
    if keys == [] {
    } else {
      ZipCons(keys, values);
      if keys[0] < key {
        FindZip(keys[1..], values[1..], key);
      } else if key < keys[0] {
        DelAbsent(Zip(keys, values), key) by { hide Zip; ZipAbove(keys, values, key); }
      }
    }
  }

  lemma {:induction false} ZipAbove<V>(keys: seq<int>, values: seq<V>, key: int)
    requires |keys| == |values| > 0 && StrictlySorted(keys) && key < keys[0]
    ensures forall i :: 0 <= i < |Zip(keys, values)| ==> Zip(keys, values)[i].0 != key
  {
  }

  lemma {:induction false} LeafDeleteOk<V>(t: Tree<V>, key: int, lo: int, hi: int, order: int)
    requires t.Leaf? && order >= 2 && Ok(t, 0, lo, hi, order - 1) && Formed(t, 0)
    requires var i := LowerBound(t.keys, key); i < |t.keys| && t.keys[i] == key
    ensures var i := LowerBound(t.keys, key); var u := Leaf(Without(t.keys, i), Without(t.values, i));
            Ok(u, 0, lo, hi, order - 1) && EntriesOf(u) == Del(EntriesOf(t), key)
  {
    assert StrictlySorted(t.keys);
    hide Del;
    DelZip(t.keys, t.values, key);
    hide Zip, LowerBound;
  }

  lemma {:induction false} AfterDeleteOk<V>(t: Tree<V>, h: nat, lo: int, hi: int, order: int, i: nat, c: Tree<V>, atRoot: bool)
    requires order >= 2 && Ok(t, h, lo, hi, order - 1) && Formed(t, h) && t.Inner? && i < |t.children|
    requires Formed(c, h - 1) && Ok(c, h - 1, LoAt(t.keys, i, lo), HiAt(t.keys, i, hi), order - 1)
    ensures var u := AfterDelete(t, h, i, c, atRoot, order / 2);
            && Ok(u, h, lo, hi, order - 1)
            && EntriesOf(u) == Flat(t.children[..i]) + EntriesOf(c) + Flat(t.children[i + 1..])
  {
    hide Ordered, EntriesOf, Flat, Rebalance;
    ReplaceChildOk(t, h, lo, hi, order - 1, i, c);
    ReplaceFormed(t, h, i, c);
    if Underfull(c, Required(atRoot, order / 2)) {
      RebalanceOk(Inner(t.keys, t.children[i := c]), h, lo, hi, order, i);
    }
  }

  /** A deletion below a node finds the key exactly when the node holds it, and then removes that entry alone. */
  ghost predicate DeletedOk<V>(r: Option<Tree<V>>, h: nat, lo: int, hi: int, m: nat, es: Entries<V>, key: int) {
    match r
    case None => Find(es, key) == None
    case Some(u) => Find(es, key) != None && Ok(u, h, lo, hi, m) && EntriesOf(u) == Del(es, key)
  }

  lemma {:induction false} DeleteFromOk<V>(t: Tree<V>, h: nat, key: int, lo: int, hi: int, atRoot: bool, order: int)
    requires order >= 2 && Ok(t, h, lo, hi, order - 1) && Formed(t, h) && lo <= key < hi
    ensures DeletedOk(DeleteFrom(t, h, key, atRoot, order / 2), h, lo, hi, order - 1, EntriesOf(t), key)
    decreases h
  {
    hide Flat, EntriesOf, Put, Del, Find, AfterDelete, UpperBound, LowerBound, LoAt, HiAt;
    if t.Leaf? {
      var i := LowerBound(t.keys, key);
      LeafFind(t, key, lo, hi, order - 1);
      if i < |t.keys| && t.keys[i] == key {
        LeafDeleteOk(t, key, lo, hi, order);
      }
    } else {
      var i := UpperBound(t.keys, key);
      ChildHoldsKey(t, h, lo, hi, order - 1, key, i);
      var a, c, b := Flat(t.children[..i]), t.children[i], Flat(t.children[i + 1..]);
      DeleteFromOk(c, h - 1, key, LoAt(t.keys, i, lo), HiAt(t.keys, i, hi), false, order);
      DelInMiddle(a, EntriesOf(c), b, key);
      var r := DeleteFrom(c, h - 1, key, false, order / 2);
      if r.Some? {
        AfterDeleteOk(t, h, lo, hi, order, i, r.value, atRoot);
      }
    }
  }

  lemma {:induction false} LeafFind<V>(t: Tree<V>, key: int, lo: int, hi: int, m: nat)
    requires t.Leaf? && Ok(t, 0, lo, hi, m) && Formed(t, 0)
    ensures var i := LowerBound(t.keys, key);
            Find(EntriesOf(t), key) == if i < |t.keys| && t.keys[i] == key then Some(t.values[i]) else None
  {
    hide Find;
    assert StrictlySorted(t.keys);
    FindZip(t.keys, t.values, key);
  }

  // ---- lookup

  ghost function LeafFor<V>(t: Tree<V>, h: nat, key: int): (l: Tree<V>)
    requires Formed(t, h)
    ensures l.Leaf? && Formed(l, 0)
    decreases h
  {
    match t
    case Leaf(_, _) => t
    case Inner(keys, children) => LeafFor(children[UpperBound(keys, key)], h - 1, key)
  }

  ghost predicate HasKey<V>(t: Tree<V>, h: nat, key: int)
    requires Formed(t, h)
  {
    var l := LeafFor(t, h, key);
    var i := LowerBound(l.keys, key);
    i < |l.keys| && l.keys[i] == key
  }

  lemma {:induction false} LeafForOk<V>(t: Tree<V>, h: nat, key: int, lo: int, hi: int, m: nat)
    requires Ok(t, h, lo, hi, m) && Formed(t, h) && lo <= key < hi
    ensures Find(EntriesOf(LeafFor(t, h, key)), key) == Find(EntriesOf(t), key)
    ensures StrictlySorted(LeafFor(t, h, key).keys)
    decreases h
  {
    hide Flat, EntriesOf, Put, Del, Find, UpperBound, LoAt, HiAt;
    if t.Inner? {
      var i := UpperBound(t.keys, key);
      ChildHoldsKey(t, h, lo, hi, m, key, i);
      LeafForOk(t.children[i], h - 1, key, LoAt(t.keys, i, lo), HiAt(t.keys, i, hi), m);
      DelInMiddle(Flat(t.children[..i]), EntriesOf(t.children[i]), Flat(t.children[i + 1..]), key);
    }
  }
}
