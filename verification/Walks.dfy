/** The walks of a match over the leaves of the price index, and what they come to when dropping an empty level moves keys
    between the leaves. */
module Walks {
  import opened SortedEntries
  import opened ReferenceBook
  import opened PriorityLists
  import opened BPlusModel
  import opened BPlusRuns
  import opened BPlusEnds
  import opened BPlusRepair

  // ---- positions in a row of leaves

  /** How many keys come before position k of leaf n. */
  ghost function Pos(ks: seq<seq<int>>, n: nat, k: nat): nat {
    (if n <= |ks| then |Strung(ks[..n])| else 0) + k
  }

  ghost predicate Within(ks: seq<seq<int>>, n: nat, k: nat) {
    n <= |ks| && k <= if n < |ks| then |ks[n]| else 0
  }

  lemma {:induction false} PosAt(ks: seq<seq<int>>, n: nat, k: nat)
    requires n < |ks| && k < |ks[n]|
    ensures Pos(ks, n, k) < |Strung(ks)| && Strung(ks)[Pos(ks, n, k)] == ks[n][k]
  {
    StrungAround(ks, n);
  }

  lemma {:induction false} PosNext(ks: seq<seq<int>>, n: nat)
    requires n < |ks|
    ensures Pos(ks, n, |ks[n]|) == Pos(ks, n + 1, 0)
  {
    assert ks[..n + 1] == ks[..n] + [ks[n]];
    StrungAppend(ks[..n], [ks[n]]);
    StrungOne(ks[n]);
  }

  lemma {:induction false} PosEnds(ks: seq<seq<int>>)
    ensures Pos(ks, 0, 0) == 0 && Pos(ks, |ks|, 0) == |Strung(ks)|
  {
    assert ks[..0] == [] && ks[..|ks|] == ks;
  }

  lemma {:induction false} StrungOne(l: seq<int>)
    ensures Strung([l]) == l
  {
    assert [l][1..] == [];
  }

  lemma {:induction false} StrungAround(ks: seq<seq<int>>, n: nat)
    requires n < |ks|
    ensures Strung(ks) == Strung(ks[..n]) + ks[n] + Strung(ks[n + 1..])
  {
    assert ks == ks[..n] + [ks[n]] + ks[n + 1..];
    StrungAppend(ks[..n] + [ks[n]], ks[n + 1..]);
    StrungAppend(ks[..n], [ks[n]]);
    StrungOne(ks[n]);
  }

  /** A position is known by its key. */
  lemma {:induction false} OnePlace(ks: seq<seq<int>>, n: nat, k: nat, m: nat, j: nat)
    requires StrictlySorted(Strung(ks)) && n < |ks| && k < |ks[n]| && m < |ks| && j < |ks[m]| && ks[n][k] == ks[m][j]
    ensures n == m && k == j
  {
    PosAt(ks, n, k);
    PosAt(ks, m, j);
    assert Pos(ks, n, k) == Pos(ks, m, j);
    if n < m {
      PosMonotone(ks, n, m);
    } else if m < n {
      PosMonotone(ks, m, n);
    }
    hide Strung;
  }

  lemma {:induction false} RowSorted(ks: seq<seq<int>>, n: nat)
    requires StrictlySorted(Strung(ks)) && n < |ks|
    ensures StrictlySorted(ks[n])
  {
    StrungAround(ks, n);
    MiddleSorted(Strung(ks[..n]), ks[n], Strung(ks[n + 1..]));
    hide Strung;
  }

  lemma {:induction false} MiddleSorted(a: seq<int>, c: seq<int>, b: seq<int>)
    requires StrictlySorted(a + c + b)
    ensures StrictlySorted(c)
  {
    forall i, j | 0 <= i < j < |c| ensures c[i] < c[j] {
      InMiddle(a, c, b, i);
      InMiddle(a, c, b, j);
    }
  }

  lemma {:induction false} PosMonotone(ks: seq<seq<int>>, n: nat, m: nat)
    requires n < m <= |ks|
    ensures Pos(ks, n, |ks[n]|) <= Pos(ks, m, 0)
    decreases m - n
  {
    PosNext(ks, n);
    if n + 1 < m {
      PosMonotone(ks, n + 1, m);
    }
    hide Strung;
  }

  // ---- what a repair does to positions

  /** The row without the key, and where the position it was at is now: one further back if a key came in from the left. */
  lemma {:induction false} MovedStrung(ks: seq<seq<int>>, n: nat, k: nat, fix: Repair)
    requires Repairable(ks, n, k, fix)
    ensures Pos(ks, n, k) < |Strung(ks)| && Strung(Moved(ks, n, k, fix)) == Without(Strung(ks), Pos(ks, n, k))
  {
    hide Strung, Mended, Without, Pos;
    var p, q := Opens(n, fix), Closes(n, fix);
    MendedStrung(ks, n, k, fix);
    PosAt(ks, n, k);
    CutAt(ks, p, q);
    StrungThree(ks[..p], ks[p..q], ks[q..]);
    StrungThree(ks[..p], Mended(ks, n, k, fix), ks[q..]);
    WithoutBetween(Strung(ks[..p]), Strung(ks[p..q]), Strung(ks[q..]), Pos(ks, n, k) - |Strung(ks[..p])|);
  }

  lemma {:induction false} CutAt<T>(s: seq<T>, p: nat, q: nat)
    requires p <= q <= |s|
    ensures s == s[..p] + s[p..q] + s[q..]
  {
  }

  lemma {:induction false} StrungThree(a: seq<seq<int>>, m: seq<seq<int>>, b: seq<seq<int>>)
    ensures Strung(a + m + b) == Strung(a) + Strung(m) + Strung(b)
  {
    StrungAppend(a + m, b);
    StrungAppend(a, m);
  }

  lemma {:induction false} WithoutBetween<T>(a: seq<T>, c: seq<T>, b: seq<T>, i: nat)
    requires i < |c|
    ensures Without(a + c + b, |a| + i) == a + Without(c, i) + b
  {
    WithoutAround(a, c, b, i);
  }

  /** The leaves a repair touches keep their keys but the one. */
  lemma {:induction false} MendedStrung(ks: seq<seq<int>>, n: nat, k: nat, fix: Repair)
    requires Repairable(ks, n, k, fix)
    ensures var p, q := Opens(n, fix), Closes(n, fix); var at := Pos(ks, n, k) - |Strung(ks[..p])|;
            0 <= at < |Strung(ks[p..q])| && Strung(Mended(ks, n, k, fix)) == Without(Strung(ks[p..q]), at)
  {
    hide Strung, Without;
    match fix
    case Nothing =>
      assert ks[n..n + 1] == [ks[n]];
      StrungOne(ks[n]);
      StrungOne(Without(ks[n], k));
      assert Pos(ks, n, k) - |Strung(ks[..n])| == k;
    case FromLeft =>
      var l, m := ks[n - 1], |ks[n - 1]| - 1;
      LeftOf(ks, n);
      StrungTwo(l, ks[n]);
      StrungTwo(l[..m], [l[m]] + Without(ks[n], k));
      BehindLeft(l, ks[n], k);
    case FromRight =>
      var r := ks[n + 1];
      assert ks[n..n + 2] == [ks[n], r];
      StrungTwo(ks[n], r);
      StrungTwo(Without(ks[n], k) + [r[0]], r[1..]);
      BeforeRight(ks[n], r, k);
    case IntoLeft =>
      LeftOf(ks, n);
      StrungTwo(ks[n - 1], ks[n]);
      StrungOne(ks[n - 1] + Without(ks[n], k));
      BehindLeft(ks[n - 1], ks[n], k);
    case OfRight =>
      assert ks[n..n + 2] == [ks[n], ks[n + 1]];
      StrungTwo(ks[n], ks[n + 1]);
      StrungOne(Without(ks[n], k) + ks[n + 1]);
      BeforeRight(ks[n], ks[n + 1], k);
  }

  lemma {:induction false} BehindLeft(l: seq<int>, c: seq<int>, k: nat)
    requires k < |c|
    ensures var d := Without(c, k);
            Without(l + c, |l| + k) == l + d && (l != [] ==> l[..|l| - 1] + ([l[|l| - 1]] + d) == l + d)
  {
  }

  lemma {:induction false} BeforeRight(c: seq<int>, r: seq<int>, k: nat)
    requires k < |c|
    ensures var d := Without(c, k); Without(c + r, k) == d + r && (r != [] ==> d + [r[0]] + r[1..] == d + r)
  {
  }

  lemma {:induction false} LeftOf(ks: seq<seq<int>>, n: nat)
    requires 0 < n < |ks|
    ensures ks[n - 1..n + 1] == [ks[n - 1], ks[n]] && |Strung(ks[..n])| == |Strung(ks[..n - 1])| + |ks[n - 1]|
  {
    PosNext(ks, n - 1);
  }

  lemma {:induction false} StrungTwo(l: seq<int>, r: seq<int>)
    ensures Strung([l, r]) == l + r
  {
    assert [l, r] == [l] + [r];
    StrungAppend([l], [r]);
    StrungOne(l);
    StrungOne(r);
  }

  /** Where the walk is after a repair: one key further back if one came in from the left, on the keys it was on otherwise,
      which may be in the left neighbour now. */
  lemma {:induction false} MovedPlace(ks: seq<seq<int>>, n: nat, k: nat, fix: Repair)
    requires Repairable(ks, n, k, fix)
    ensures var r := Moved(ks, n, k, fix);
            if fix == FromLeft then n > 0 && n < |r| && k < |r[n]| && Pos(r, n, k) + 1 == Pos(ks, n, k)
            else if fix == IntoLeft then
              && n > 0 && n - 1 < |r| && r[n - 1] == ks[n - 1] + Without(ks[n], k)
              && Pos(r, n - 1, |ks[n - 1]| + k) == Pos(ks, n, k)
            else n < |r| && k <= |r[n]| && Pos(r, n, k) == Pos(ks, n, k)
  {
    hide Strung;
    var r := Moved(ks, n, k, fix);
    if fix == FromLeft {
      var l, m := ks[n - 1], |ks[n - 1]| - 1;
      LeftOf(ks, n);
      LeftOf(r, n);
      assert r[..n - 1] == ks[..n - 1] && r[n - 1] == l[..m] && r[n] == [l[m]] + Without(ks[n], k);
    } else if fix == IntoLeft {
      LeftOf(ks, n);
      assert r[..n - 1] == ks[..n - 1] && r[n - 1] == ks[n - 1] + Without(ks[n], k);
    } else {
      assert r[..n] == ks[..n];
      assert fix == Nothing ==> r[n] == Without(ks[n], k);
      assert fix == FromRight ==> r[n] == Without(ks[n], k) + [ks[n + 1][0]];
      assert fix == OfRight ==> r[n] == Without(ks[n], k) + ks[n + 1];
    }
  }

  // ---- the orders at a key, and what a walk comes to

  /** The orders waiting at this price; there are none if its level has run empty and has not been dropped yet. */
  ghost function At(q: seq<Maker>, key: int): seq<Maker> {
    if q == [] then [] else (if q[0].price == key then [q[0]] else []) + At(q[1..], key)
  }

  lemma {:induction false} AtKey(q: seq<Maker>, key: int)
    ensures forall i :: 0 <= i < |At(q, key)| ==> At(q, key)[i].price == key
    ensures Positive(q) ==> Positive(At(q, key))
  {
    if q != [] {
      AtKey(q[1..], key);
    }
  }

  lemma {:induction false} AtAppend(a: seq<Maker>, b: seq<Maker>, key: int)
    ensures At(a + b, key) == At(a, key) + At(b, key)
  {
    if a == [] {
      assert a + b == b;
    } else {
      var ab := a + b;
      assert ab[0] == a[0] && ab[1..] == a[1..] + b;
      AtAppend(a[1..], b, key);
      Assoc(if a[0].price == key then [a[0]] else [], At(a[1..], key), At(b, key));
    }
  }

  lemma {:induction false} AtOnly(q: seq<Maker>, price: int, key: int)
    requires forall i :: 0 <= i < |q| ==> q[i].price == price
    ensures At(q, key) == if price == key then q else []
  {
    if q != [] {
      AtOnly(q[1..], price, key);
    }
  }

  /** What a walk gives; whether it comes to an end at all; and whether it came to every order once and in turn. A walk up
      goes on for ever once it meets an empty level on a leaf that has been merged into another; a walk down on to such a
      leaf is not followed. */
  datatype Course = Course(fills: seq<MatchResult>, ends: bool, straight: bool)

  /** The tree without a key of one of its leaves. */
  lemma {:induction false} KeyGoes<V>(root: Root<V>, order: int, n: nat, k: nat)
    requires order >= 2 && Good(root, order) && n < |KeysOf(root)| && k < |KeysOf(root)[n]|
    ensures var ks := KeysOf(root); var key := ks[n][k]; var r, fix := After(root, DelOp(key), order), FixOf(root, key, order);
            && Good(r, order) && |Contents(r)| == |Contents(root)| - 1 && StrictlySorted(Strung(ks)) && PlaceOf(root, key, order) == n
            && LowerBound(ks[n], key) == k && StrictlySorted(ks[n])
            && (r.None? ==> |Strung(ks)| == 1)
            && (r.Some? ==> Repairable(ks, n, k, fix) && KeysOf(r) == Moved(ks, n, k, fix))
  {
    hide Good, Contents, Find, KeysOf, Strung, LowerBound, Repairable, Moved;
    var ks := KeysOf(root);
    var key := ks[n][k];
    KeysAscend(root, order);
    PosAt(ks, n, k);
    FindIsSome(Contents(root), Pos(ks, n, k));
    DeleteOk(root, key, order);
    AfterMoves(root, key, order);
    OnePlace(ks, n, k, PlaceOf(root, key, order), LowerBound(ks[PlaceOf(root, key, order)], key));
    RowSorted(ks, n);
  }

  /** What dropping a key does to the keys ahead of it and behind it, and where it leaves a walk. */
  lemma {:induction false} Dropping<V>(root: Root<V>, order: int, n: nat, k: nat)
    requires order >= 2 && Good(root, order) && n < |KeysOf(root)| && k < |KeysOf(root)[n]|
    ensures var ks := KeysOf(root); var r, fix := After(root, DelOp(ks[n][k]), order), FixOf(root, ks[n][k], order);
            && Good(r, order) && |Contents(r)| < |Contents(root)| && StrictlySorted(Strung(ks)) && PlaceOf(root, ks[n][k], order) == n
            && var s, s', x, ks' := Strung(ks), Strung(KeysOf(r)), Pos(ks, n, k), KeysOf(r);
               && x < |s| && s[x] == ks[n][k] && s' == Without(s, x) && s'[..x] == s[..x] && s'[x..] == s[x + 1..]
               && if r.None? then s[..x] == s[x + 1..] == []
                  else if fix == FromLeft then n < |ks'| && k < |ks'[n]| && x > 0 && Pos(ks', n, k) == x - 1
                  else if fix == IntoLeft then
                    0 < n <= |ks'| && |ks'[n - 1]| == |ks[n - 1]| + |ks[n]| - 1 && Pos(ks', n - 1, |ks[n - 1]| + k) == x
                  else n < |ks'| && k <= |ks'[n]| && Pos(ks', n, k) == x
  {
    hide Good, Contents, KeysOf, Strung, Pos, At, Moved, Repairable;
    KeyGoes(root, order, n, k);
    var ks := KeysOf(root);
    var r, fix := After(root, DelOp(ks[n][k]), order), FixOf(root, ks[n][k], order);
    PosAt(ks, n, k);
    WithoutParts(Strung(ks), Pos(ks, n, k));
    if r.None? {
      NoLeaves(r);
      assert Without(Strung(ks), 0) == [];
    } else {
      MovedStrung(ks, n, k, fix);
      MovedPlace(ks, n, k, fix);
    }
  }

  lemma {:induction false} NoLeaves<V>(root: Root<V>)
    requires root.None?
    ensures Strung(KeysOf(root)) == []
  {
  }

  lemma {:induction false} WithoutParts<T>(s: seq<T>, x: nat)
    requires x < |s|
    ensures Without(s, x)[..x] == s[..x] && Without(s, x)[x..] == s[x + 1..]
  {
  }

  // ---- upwards: a buyer walks the asks

  /** From position k of leaf n. Off says that these keys are read on a leaf which has been merged into leaf n since. */
  ghost function WalkUp<V>(root: Root<V>, order: int, q: seq<Maker>, off: bool, n: nat, k: nat, limit: int, qty: int): Course
    requires order >= 2 && Good(root, order)
    decreases |Contents(root)|, |KeysOf(root)| - n, if n < |KeysOf(root)| then |KeysOf(root)[n]| - k else 0
  {
    var ks := KeysOf(root);
    if qty <= 0 || n >= |ks| then Course([], true, true)
    else if k >= |ks[n]| then WalkUp(root, order, q, false, n + 1, 0, limit, qty)
    else
      var key := ks[n][k];
      if At(q, key) == [] then
        if off then Course([], false, false) else DropUp(root, order, q, n, k, limit, qty)
      else if key > limit then Course([], true, true)
      else
        var fs := Fills(Buy, Some(limit), At(q, key), qty);
        var c := WalkUp(root, order, q, off, n, k + 1, limit, qty - FilledQty(fs));
        c.(fills := fs + c.fills)
  }

  /** The empty level there is dropped, and the walk goes on at the same position of the same leaf. */
  ghost function DropUp<V>(root: Root<V>, order: int, q: seq<Maker>, n: nat, k: nat, limit: int, qty: int): Course
    requires order >= 2 && Good(root, order) && n < |KeysOf(root)| && k < |KeysOf(root)[n]|
    decreases |Contents(root)|, 0, 0
  {
    KeyGoes(root, order, n, k);
    var ks := KeysOf(root);
    var r, fix := After(root, DelOp(ks[n][k]), order), FixOf(root, ks[n][k], order);
    if r.None? then Course([], true, true)
    else
      var c := if fix == IntoLeft then WalkUp(r, order, q, true, n - 1, |ks[n - 1]| + k, limit, qty)
               else WalkUp(r, order, q, false, n, k, limit, qty);
      c.(straight := c.straight && fix != FromLeft)
  }

  // ---- downwards: a seller walks the bids

  /** With n leaves to go, and k keys to go in the last of them. */
  ghost function WalkDown<V>(root: Root<V>, order: int, q: seq<Maker>, n: nat, k: nat, limit: int, qty: int): Course
    requires order >= 2 && Good(root, order)
    decreases |Contents(root)|, n, k
  {
    var ks := KeysOf(root);
    if qty <= 0 || n == 0 || n > |ks| then Course([], true, true)
    else if k == 0 || k > |ks[n - 1]| then WalkDown(root, order, q, n - 1, if n > 1 then |ks[n - 2]| else 0, limit, qty)
    else
      var key := ks[n - 1][k - 1];
      if At(q, key) == [] then DropDown(root, order, q, n, k, limit, qty)
      else if key < limit then Course([], true, true)
      else
        var fs := Fills(Sell, Some(limit), At(q, key), qty);
        var c := WalkDown(root, order, q, n, k - 1, limit, qty - FilledQty(fs));
        c.(fills := fs + c.fills)
  }

  /** The empty level there is dropped, and the walk goes on one position lower in the same leaf: past a key if one came in
      from the left. A leaf that is merged into its left neighbour while it holds other keys is not followed. */
  ghost function DropDown<V>(root: Root<V>, order: int, q: seq<Maker>, n: nat, k: nat, limit: int, qty: int): Course
    requires order >= 2 && Good(root, order) && 0 < n <= |KeysOf(root)| && 0 < k <= |KeysOf(root)[n - 1]|
    decreases |Contents(root)|, 0, 0
  {
    KeyGoes(root, order, n - 1, k - 1);
    var ks := KeysOf(root);
    var r, fix := After(root, DelOp(ks[n - 1][k - 1]), order), FixOf(root, ks[n - 1][k - 1], order);
    if r.None? then Course([], true, true)
    else if fix == IntoLeft then
      if |ks[n - 1]| > 1 then Course([], false, false) else WalkDown(r, order, q, n - 1, |ks[n - 2]|, limit, qty)
    else
      var c := WalkDown(r, order, q, n, k - 1, limit, qty);
      c.(straight := c.straight && (fix == FromLeft ==> Passable(q, ks, n, k, limit)))
  }

  /** The next key down may be stepped over if its level is empty or beyond the limit. */
  ghost predicate Passable(q: seq<Maker>, ks: seq<seq<int>>, n: nat, k: nat, limit: int)
    requires n > 0 && k > 0
  {
    var x := Pos(ks, n - 1, k - 1) - 1;
    0 <= x < |Strung(ks)| && (At(q, Strung(ks)[x]) == [] || Strung(ks)[x] < limit)
  }

  // ---- what the orders ahead would get in turn

  /** The orders of these keys, level by level. */
  ghost function Waiting(q: seq<Maker>, keys: seq<int>): seq<Maker> {
    if keys == [] then [] else At(q, keys[0]) + Waiting(q, keys[1..])
  }

  lemma {:induction false} WaitingHead(q: seq<Maker>, keys: seq<int>)
    requires Waiting(q, keys) != []
    ensures Waiting(q, keys)[0].price in keys
  {
    AtKey(q, keys[0]);
    if At(q, keys[0]) == [] {
      WaitingHead(q, keys[1..]);
    }
  }

  lemma {:induction false} FilledAmong(taker: Side, q: seq<Maker>, keys: seq<int>, limit: int, qty: int)
    ensures var fs := Fills(taker, Some(limit), Waiting(q, keys), qty); fs != [] ==> fs[0].price in keys
  {
    if Waiting(q, keys) != [] {
      WaitingHead(q, keys);
    }
    hide Waiting;
  }

  lemma {:induction false} AheadOf(q: seq<Maker>, keys: seq<int>, x: nat)
    requires x < |keys|
    ensures Waiting(q, keys[x..]) == At(q, keys[x]) + Waiting(q, keys[x + 1..])
  {
    assert keys[x..][1..] == keys[x + 1..];
  }

  /** A level whose orders cross gives them first. */
  lemma {:induction false} Visited(taker: Side, q: seq<Maker>, key: int, rest: seq<Maker>, limit: int, qty: int)
    requires Positive(q) && Crosses(taker, Some(limit), key) && qty >= 0
    ensures var fs := Fills(taker, Some(limit), At(q, key), qty); var left := qty - FilledQty(fs);
            && left >= 0 && Fills(taker, Some(limit), At(q, key) + rest, qty) == fs + Fills(taker, Some(limit), rest, left)
            && (At(q, key) != [] && qty > 0 ==> fs != [] && fs[0].price == key)
  {
    AtKey(q, key);
    FillsAppend(taker, Some(limit), At(q, key), rest, qty);
    hide FilledQty, At;
  }

  lemma {:induction false} Stopped(taker: Side, q: seq<Maker>, key: int, rest: seq<Maker>, limit: int, qty: int)
    requires At(q, key) != [] && !Crosses(taker, Some(limit), key)
    ensures Fills(taker, Some(limit), At(q, key) + rest, qty) == []
  {
    AtKey(q, key);
    hide At;
  }

  lemma {:induction false} SameBehind<T>(a: seq<T>, b: seq<T>, c: seq<T>)
    ensures a + b == a + c <==> b == c
  {
    if a + b == a + c {
      assert (a + b)[|a|..] == b && (a + c)[|a|..] == c;
    }
  }

  /** Every key the walk has left behind had an order within the limit. */
  ghost predicate Passed(q: seq<Maker>, keys: seq<int>, limit: int) {
    forall i :: 0 <= i < |keys| ==> At(q, keys[i]) != [] && keys[i] <= limit
  }

  /** A walk upwards that ends has given the orders ahead their due exactly if no key was borrowed from a left neighbour. */
  lemma {:induction false} UpIff<V>(root: Root<V>, order: int, q: seq<Maker>, off: bool, n: nat, k: nat, limit: int, qty: int)
    requires order >= 2 && Good(root, order) && Positive(q) && qty >= 0 && Within(KeysOf(root), n, k)
    requires var ks := KeysOf(root); Pos(ks, n, k) <= |Strung(ks)| && Passed(q, Strung(ks)[..Pos(ks, n, k)], limit)
    ensures var ks := KeysOf(root); var c := WalkUp(root, order, q, off, n, k, limit, qty);
            c.ends ==> (c.fills == Fills(Buy, Some(limit), Waiting(q, Strung(ks)[Pos(ks, n, k)..]), qty) <==> c.straight)
    decreases |Contents(root)|, |KeysOf(root)| - n, if n < |KeysOf(root)| then |KeysOf(root)[n]| - k else 0
  {
    hide Good, Contents, KeysOf, Strung, Pos, At, Fills, FilledQty, Waiting, DropUp, Passed;
    var ks := KeysOf(root);
    var s, x := Strung(ks), Pos(ks, n, k);
    if qty == 0 {
      NothingWanted(Buy, limit, Waiting(q, s[x..]));
    } else if n >= |ks| {
      PosEnds(ks);
      NothingWaits(q, s[x..], Buy, limit, qty);
    } else if k >= |ks[n]| {
      PosNext(ks, n);
      UpIff(root, order, q, false, n + 1, 0, limit, qty);
    } else {
      var key := ks[n][k];
      PosAt(ks, n, k);
      AheadOf(q, s, x);
      if At(q, key) == [] {
        if !off {
          DropUpIff(root, order, q, n, k, limit, qty);
        }
      } else if key > limit {
        Stopped(Buy, q, key, Waiting(q, s[x + 1..]), limit, qty);
      } else {
        Visited(Buy, q, key, Waiting(q, s[x + 1..]), limit, qty);
        var fs := Fills(Buy, Some(limit), At(q, key), qty);
        NextPos(ks, n, k);
        PassedOne(q, s, x, limit);
        UpIff(root, order, q, off, n, k + 1, limit, qty - FilledQty(fs));
        SameBehind(fs, WalkUp(root, order, q, off, n, k + 1, limit, qty - FilledQty(fs)).fills,
                   Fills(Buy, Some(limit), Waiting(q, s[x + 1..]), qty - FilledQty(fs)));
      }
    }
  }

  lemma {:induction false} NextPos(ks: seq<seq<int>>, n: nat, k: nat)
    ensures Pos(ks, n, k + 1) == Pos(ks, n, k) + 1
  {
  }

  lemma {:induction false} PassedOne(q: seq<Maker>, keys: seq<int>, x: nat, limit: int)
    requires x < |keys| && Passed(q, keys[..x], limit) && At(q, keys[x]) != [] && keys[x] <= limit
    ensures Passed(q, keys[..x + 1], limit)
  {
    assert forall i :: 0 <= i < x ==> keys[..x][i] == keys[..x + 1][i];
  }

  lemma {:induction false} NothingWanted(taker: Side, limit: int, q: seq<Maker>)
    ensures Fills(taker, Some(limit), q, 0) == []
  {
  }

  lemma {:induction false} NothingWaits(q: seq<Maker>, keys: seq<int>, taker: Side, limit: int, qty: int)
    requires keys == []
    ensures Fills(taker, Some(limit), Waiting(q, keys), qty) == []
  {
  }

  lemma {:induction false} DropUpIff<V>(root: Root<V>, order: int, q: seq<Maker>, n: nat, k: nat, limit: int, qty: int)
    requires order >= 2 && Good(root, order) && Positive(q) && qty > 0 && n < |KeysOf(root)| && k < |KeysOf(root)[n]|
    requires var ks := KeysOf(root);
             && At(q, ks[n][k]) == [] && Pos(ks, n, k) <= |Strung(ks)| && Passed(q, Strung(ks)[..Pos(ks, n, k)], limit)
    ensures var ks := KeysOf(root); var c := DropUp(root, order, q, n, k, limit, qty);
            c.ends ==> (c.fills == Fills(Buy, Some(limit), Waiting(q, Strung(ks)[Pos(ks, n, k)..]), qty) <==> c.straight)
    decreases |Contents(root)|, 0, 0
  {
    hide Good, Contents, KeysOf, Strung, Pos, At, Fills, FilledQty, Waiting, Passed, Without, After, FixOf, WalkUp;
    Dropping(root, order, n, k);
    var ks := KeysOf(root);
    var s, x := Strung(ks), Pos(ks, n, k);
    var r, fix := After(root, DelOp(ks[n][k]), order), FixOf(root, ks[n][k], order);
    AheadOf(q, s, x);
    assert [] + Waiting(q, s[x + 1..]) == Waiting(q, s[x + 1..]);
    if r.None? {
      NothingWaits(q, s[x + 1..], Buy, limit, qty);
    } else if fix == FromLeft {
      BorrowedAgain(r, order, q, n, k, limit, qty, s, x);
    } else if fix == IntoLeft {
      UpIff(r, order, q, true, n - 1, |ks[n - 1]| + k, limit, qty);
    } else {
      UpIff(r, order, q, false, n, k, limit, qty);
    }
  }

  /** On a key that was borrowed from the left the walk serves again whom it has served. */
  lemma {:induction false} BorrowedAgain<V>(r: Root<V>, order: int, q: seq<Maker>, n: nat, k: nat, limit: int, qty: int, s: seq<int>, x: nat)
    requires order >= 2 && Good(r, order) && Positive(q) && qty > 0 && StrictlySorted(s) && x < |s|
    requires var ks := KeysOf(r); n < |ks| && k < |ks[n]| && Strung(ks) == Without(s, x) && Pos(ks, n, k) + 1 == x
    requires Passed(q, s[..x], limit)
    ensures WalkUp(r, order, q, false, n, k, limit, qty).fills != Fills(Buy, Some(limit), Waiting(q, s[x + 1..]), qty)
  {
    hide Good, Contents, KeysOf, Strung, Pos, At, Fills, FilledQty, Waiting, Moved, Repairable, DropUp;
    var ks := KeysOf(r);
    PosAt(ks, n, k);
    var key := ks[n][k];
    assert key == s[..x][x - 1];
    Visited(Buy, q, key, [], limit, qty);
    FilledAmong(Buy, q, s[x + 1..], limit, qty);
    assert key !in s[x + 1..];
  }

  // ---- the same, downwards

  ghost function PosDown(ks: seq<seq<int>>, n: nat, k: nat): nat {
    if n == 0 then 0 else Pos(ks, n - 1, k)
  }

  ghost predicate WithinDown(ks: seq<seq<int>>, n: nat, k: nat) {
    n <= |ks| && k <= if n > 0 then |ks[n - 1]| else 0
  }

  /** The orders of these keys, from the last key to the first. */
  ghost function WaitingDown(q: seq<Maker>, keys: seq<int>): seq<Maker> {
    if keys == [] then [] else At(q, keys[|keys| - 1]) + WaitingDown(q, keys[..|keys| - 1])
  }

  lemma {:induction false} WaitingDownHead(q: seq<Maker>, keys: seq<int>)
    requires WaitingDown(q, keys) != []
    ensures WaitingDown(q, keys)[0].price in keys
  {
    AtKey(q, keys[|keys| - 1]);
    if At(q, keys[|keys| - 1]) == [] {
      WaitingDownHead(q, keys[..|keys| - 1]);
    }
  }

  lemma {:induction false} AheadBelow(q: seq<Maker>, keys: seq<int>, x: nat)
    requires 0 < x <= |keys|
    ensures WaitingDown(q, keys[..x]) == At(q, keys[x - 1]) + WaitingDown(q, keys[..x - 1])
  {
    assert keys[..x][..x - 1] == keys[..x - 1];
  }

  lemma {:induction false} NothingBelow(q: seq<Maker>, keys: seq<int>, limit: int, qty: int)
    requires keys == []
    ensures Fills(Sell, Some(limit), WaitingDown(q, keys), qty) == []
  {
  }

  /** A walk downwards gives only what is below where it starts. */
  lemma {:induction false} GivesBelow<V>(root: Root<V>, order: int, q: seq<Maker>, n: nat, k: nat, limit: int, qty: int, top: int)
    requires order >= 2 && Good(root, order) && Positive(q) && qty >= 0 && WithinDown(KeysOf(root), n, k)
    requires var ks := KeysOf(root);
             var x := PosDown(ks, n, k); x <= |Strung(ks)| && forall i :: 0 <= i < x ==> Strung(ks)[i] < top
    ensures var fs := WalkDown(root, order, q, n, k, limit, qty).fills; fs != [] ==> fs[0].price < top
    decreases |Contents(root)|, n, k
  {
    hide Good, Contents, KeysOf, Strung, Pos, At, Fills, FilledQty, DropDown;
    var ks := KeysOf(root);
    if qty > 0 && n > 0 {
      if k == 0 {
        if n > 1 {
          PosNext(ks, n - 2);
        }
        GivesBelow(root, order, q, n - 1, if n > 1 then |ks[n - 2]| else 0, limit, qty, top);
      } else {
        var key := ks[n - 1][k - 1];
        PosAt(ks, n - 1, k - 1);
        NextPos(ks, n - 1, k - 1);
        if At(q, key) == [] {
          DropGivesBelow(root, order, q, n, k, limit, qty, top);
        } else if key >= limit {
          Visited(Sell, q, key, [], limit, qty);
        }
      }
    }
  }

  lemma {:induction false} DropGivesBelow<V>(root: Root<V>, order: int, q: seq<Maker>, n: nat, k: nat, limit: int, qty: int, top: int)
    requires order >= 2 && Good(root, order) && Positive(q) && qty > 0 && 0 < n <= |KeysOf(root)| && 0 < k <= |KeysOf(root)[n - 1]|
    requires var ks := KeysOf(root);
             var x := Pos(ks, n - 1, k); x <= |Strung(ks)| && forall i :: 0 <= i < x ==> Strung(ks)[i] < top
    ensures var fs := DropDown(root, order, q, n, k, limit, qty).fills; fs != [] ==> fs[0].price < top
    decreases |Contents(root)|, 0, 0
  {
    hide Good, Contents, KeysOf, Strung, Pos, At, Fills, FilledQty, Without, After, FixOf, WalkDown;
    Dropping(root, order, n - 1, k - 1);
    var ks := KeysOf(root);
    var s, x := Strung(ks), Pos(ks, n - 1, k - 1);
    var r, fix := After(root, DelOp(ks[n - 1][k - 1]), order), FixOf(root, ks[n - 1][k - 1], order);
    NextPos(ks, n - 1, k - 1);
    if r.Some? {
      var s' := Strung(KeysOf(r));
      assert forall i :: 0 <= i < x ==> s'[i] == s'[..x][i] && s[i] == s[..x][i];
      if fix == IntoLeft {
        if |ks[n - 1]| == 1 {
          GivesBelow(r, order, q, n - 1, |ks[n - 2]|, limit, qty, top);
        }
      } else {
        GivesBelow(r, order, q, n, k - 1, limit, qty, top);
      }
    }
  }

  /** A walk downwards that can be followed has given the orders ahead their due exactly if no key within the limit that had
      orders was stepped over. */
  lemma {:induction false} DownIff<V>(root: Root<V>, order: int, q: seq<Maker>, n: nat, k: nat, limit: int, qty: int)
    requires order >= 2 && Good(root, order) && Positive(q) && qty >= 0 && WithinDown(KeysOf(root), n, k)
    requires var ks := KeysOf(root); PosDown(ks, n, k) <= |Strung(ks)|
    ensures var ks := KeysOf(root); var c := WalkDown(root, order, q, n, k, limit, qty);
            c.ends ==> (c.fills == Fills(Sell, Some(limit), WaitingDown(q, Strung(ks)[..PosDown(ks, n, k)]), qty) <==> c.straight)
    decreases |Contents(root)|, n, k
  {
    hide Good, Contents, KeysOf, Strung, Pos, At, Fills, FilledQty, WaitingDown, DropDown;
    var ks := KeysOf(root);
    var s, x := Strung(ks), PosDown(ks, n, k);
    if qty == 0 {
      NothingWanted(Sell, limit, WaitingDown(q, s[..x]));
    } else if n == 0 {
      NothingBelow(q, s[..x], limit, qty);
    } else if k == 0 {
      if n > 1 {
        PosNext(ks, n - 2);
      } else {
        PosEnds(ks);
      }
      DownIff(root, order, q, n - 1, if n > 1 then |ks[n - 2]| else 0, limit, qty);
    } else {
      var key := ks[n - 1][k - 1];
      PosAt(ks, n - 1, k - 1);
      NextPos(ks, n - 1, k - 1);
      AheadBelow(q, s, x);
      if At(q, key) == [] {
        DropDownIff(root, order, q, n, k, limit, qty);
      } else if key < limit {
        Stopped(Sell, q, key, WaitingDown(q, s[..x - 1]), limit, qty);
      } else {
        Visited(Sell, q, key, WaitingDown(q, s[..x - 1]), limit, qty);
        var fs := Fills(Sell, Some(limit), At(q, key), qty);
        DownIff(root, order, q, n, k - 1, limit, qty - FilledQty(fs));
        SameBehind(fs, WalkDown(root, order, q, n, k - 1, limit, qty - FilledQty(fs)).fills,
                   Fills(Sell, Some(limit), WaitingDown(q, s[..x - 1]), qty - FilledQty(fs)));
      }
    }
  }

  lemma {:induction false} DropDownIff<V>(root: Root<V>, order: int, q: seq<Maker>, n: nat, k: nat, limit: int, qty: int)
    requires order >= 2 && Good(root, order) && Positive(q) && qty > 0 && 0 < n <= |KeysOf(root)| && 0 < k <= |KeysOf(root)[n - 1]|
    requires var ks := KeysOf(root); At(q, ks[n - 1][k - 1]) == [] && Pos(ks, n - 1, k) <= |Strung(ks)|
    ensures var ks := KeysOf(root); var c := DropDown(root, order, q, n, k, limit, qty);
            c.ends ==> (c.fills == Fills(Sell, Some(limit), WaitingDown(q, Strung(ks)[..Pos(ks, n - 1, k)]), qty) <==> c.straight)
    decreases |Contents(root)|, 0, 0
  {
    hide Good, Contents, KeysOf, Strung, Pos, At, Fills, FilledQty, WaitingDown, Passable, Without, After, FixOf, WalkDown;
    Dropping(root, order, n - 1, k - 1);
    var ks := KeysOf(root);
    var s, x := Strung(ks), Pos(ks, n - 1, k - 1);
    var r, fix := After(root, DelOp(ks[n - 1][k - 1]), order), FixOf(root, ks[n - 1][k - 1], order);
    NextPos(ks, n - 1, k - 1);
    AheadBelow(q, s, x + 1);
    assert [] + WaitingDown(q, s[..x]) == WaitingDown(q, s[..x]);
    if r.None? {
      NothingBelow(q, s[..x], limit, qty);
    } else if fix == FromLeft {
      SteppedOver(r, order, q, ks, n, k, limit, qty);
    } else if fix != IntoLeft {
      DownIff(r, order, q, n, k - 1, limit, qty);
    } else if |ks[n - 1]| == 1 {
      DownIff(r, order, q, n - 1, |ks[n - 2]|, limit, qty);
    }
  }

  /** A key that came in from the left makes the walk step over the next key. */
  lemma {:induction false} SteppedOver<V>(r: Root<V>, order: int, q: seq<Maker>, ks: seq<seq<int>>, n: nat, k: nat, limit: int, qty: int)
    requires order >= 2 && Good(r, order) && Positive(q) && qty > 0 && StrictlySorted(Strung(ks))
    requires 0 < n <= |ks| && 0 < k <= |ks[n - 1]| && WithinDown(KeysOf(r), n, k - 1)
    requires var x := Pos(ks, n - 1, k - 1);
             0 < x < |Strung(ks)| && Strung(KeysOf(r)) == Without(Strung(ks), x) && Pos(KeysOf(r), n - 1, k - 1) == x - 1
    ensures var c, x := WalkDown(r, order, q, n, k - 1, limit, qty), Pos(ks, n - 1, k - 1);
            c.ends ==> (c.fills == Fills(Sell, Some(limit), WaitingDown(q, Strung(ks)[..x]), qty)
                        <==> c.straight && Passable(q, ks, n, k, limit))
    decreases |Contents(r)|, n, k
  {
    hide Good, Contents, KeysOf, Strung, Pos, At, Fills, FilledQty, WaitingDown, DropDown, WalkDown;
    var s, x := Strung(ks), Pos(ks, n - 1, k - 1);
    var key := s[x - 1];
    assert Without(s, x)[..x - 1] == s[..x - 1];
    AheadBelow(q, s, x);
    if At(q, key) == [] {
      assert [] + WaitingDown(q, s[..x - 1]) == WaitingDown(q, s[..x - 1]);
      DownIff(r, order, q, n, k - 1, limit, qty);
    } else if key < limit {
      Stopped(Sell, q, key, WaitingDown(q, s[..x - 1]), limit, qty);
      BeyondBelow(q, s[..x - 1], limit, qty);
      DownIff(r, order, q, n, k - 1, limit, qty);
    } else {
      Visited(Sell, q, key, WaitingDown(q, s[..x - 1]), limit, qty);
      assert forall i :: 0 <= i < x - 1 ==> Without(s, x)[..x - 1][i] == s[i];
      GivesBelow(r, order, q, n, k - 1, limit, qty, key);
    }
  }

  lemma {:induction false} BeyondBelow(q: seq<Maker>, keys: seq<int>, limit: int, qty: int)
    requires forall i :: 0 <= i < |keys| ==> keys[i] < limit
    ensures Fills(Sell, Some(limit), WaitingDown(q, keys), qty) == []
  {
    if WaitingDown(q, keys) != [] {
      WaitingDownHead(q, keys);
    }
    hide WaitingDown;
  }

  // ---- deletions that disturb no walk

  /** The keys whose levels are empty, in ascending order. */
  ghost function Due(q: seq<Maker>, keys: seq<int>): seq<int> {
    if keys == [] then [] else (if At(q, keys[0]) == [] then [keys[0]] else []) + Due(q, keys[1..])
  }

  /** And in descending order. */
  ghost function DueDown(q: seq<Maker>, keys: seq<int>): seq<int> {
    if keys == [] then []
    else
      var n := |keys| - 1;
      (if At(q, keys[n]) == [] then [keys[n]] else []) + DueDown(q, keys[..n])
  }

  /** The leaf that loses the key takes from its right neighbour or nothing at all; if it goes into its left neighbour, it
      has run empty. */
  ghost predicate Smooth<V>(root: Root<V>, key: int, order: int)
    requires order >= 2 && Good(root, order)
  {
    var fix, ks, n := FixOf(root, key, order), KeysOf(root), PlaceOf(root, key, order);
    fix != FromLeft && (fix == IntoLeft ==> n < |ks| && |ks[n]| == 1)
  }

  /** That holds for these keys, deleted one after the other. */
  ghost predicate SmoothFor<V>(root: Root<V>, keys: seq<int>, order: int)
    requires order >= 2 && Good(root, order)
    decreases |keys|
  {
    keys == [] || (Smooth(root, keys[0], order) && SmoothFor(After(root, DelOp(keys[0]), order), keys[1..], order))
  }

  lemma {:induction false} SmoothStep<V>(root: Root<V>, key: int, keys: seq<int>, order: int)
    requires order >= 2 && Good(root, order) && SmoothFor(root, [key] + keys, order)
    ensures Smooth(root, key, order) && SmoothFor(After(root, DelOp(key), order), keys, order)
  {
    assert ([key] + keys)[1..] == keys;
    hide Good, Smooth;
  }

  lemma {:induction false} DueAhead(q: seq<Maker>, keys: seq<int>, x: nat)
    requires x < |keys|
    ensures Due(q, keys[x..]) == if At(q, keys[x]) == [] then [keys[x]] + Due(q, keys[x + 1..]) else Due(q, keys[x + 1..])
  {
    assert keys[x..][1..] == keys[x + 1..];
  }

  lemma {:induction false} DueBelow(q: seq<Maker>, keys: seq<int>, x: nat)
    requires 0 < x <= |keys|
    ensures DueDown(q, keys[..x])
         == if At(q, keys[x - 1]) == [] then [keys[x - 1]] + DueDown(q, keys[..x - 1]) else DueDown(q, keys[..x - 1])
  {
    assert keys[..x][..x - 1] == keys[..x - 1];
  }

  /** Then a walk upwards ends and comes to every order in turn, whatever the limit and the quantity. */
  lemma {:induction false} UpSmooth<V>(root: Root<V>, order: int, q: seq<Maker>, off: bool, n: nat, k: nat, limit: int, qty: int)
    requires order >= 2 && Good(root, order) && Within(KeysOf(root), n, k)
    requires var ks := KeysOf(root);
             && Pos(ks, n, k) <= |Strung(ks)| && SmoothFor(root, Due(q, Strung(ks)[Pos(ks, n, k)..]), order)
             && (off ==> n < |ks| && k == |ks[n]|)
    ensures var c := WalkUp(root, order, q, off, n, k, limit, qty); c.ends && c.straight
    decreases |Contents(root)|, |KeysOf(root)| - n, if n < |KeysOf(root)| then |KeysOf(root)[n]| - k else 0
  {
    hide Good, Contents, KeysOf, Strung, Pos, At, Fills, FilledQty, Due, After, FixOf, Without, SmoothFor;
    var ks := KeysOf(root);
    var s, x := Strung(ks), Pos(ks, n, k);
    if qty > 0 && n < |ks| {
      if k == |ks[n]| {
        PosNext(ks, n);
        UpSmooth(root, order, q, false, n + 1, 0, limit, qty);
      } else {
        Dropping(root, order, n, k);
        DueAhead(q, s, x);
        NextPos(ks, n, k);
        var key := ks[n][k];
        if At(q, key) == [] {
          SmoothStep(root, key, Due(q, s[x + 1..]), order);
          var r := After(root, DelOp(key), order);
          if r.Some? && FixOf(root, key, order) == IntoLeft {
            UpSmooth(r, order, q, true, n - 1, |ks[n - 1]|, limit, qty);
          } else if r.Some? {
            UpSmooth(r, order, q, false, n, k, limit, qty);
          }
        } else if key <= limit {
          UpSmooth(root, order, q, false, n, k + 1, limit, qty - FilledQty(Fills(Buy, Some(limit), At(q, key), qty)));
        }
      }
    }
  }

  /** So does a walk downwards. */
  lemma {:induction false} DownSmooth<V>(root: Root<V>, order: int, q: seq<Maker>, n: nat, k: nat, limit: int, qty: int)
    requires order >= 2 && Good(root, order) && WithinDown(KeysOf(root), n, k)
    requires var ks := KeysOf(root);
             PosDown(ks, n, k) <= |Strung(ks)| && SmoothFor(root, DueDown(q, Strung(ks)[..PosDown(ks, n, k)]), order)
    ensures var c := WalkDown(root, order, q, n, k, limit, qty); c.ends && c.straight
    decreases |Contents(root)|, n, k
  {
    hide Good, Contents, KeysOf, Strung, Pos, At, Fills, FilledQty, DueDown, After, FixOf, Without, SmoothFor;
    var ks := KeysOf(root);
    var s, x := Strung(ks), PosDown(ks, n, k);
    if qty > 0 && n > 0 {
      if k == 0 {
        if n > 1 {
          PosNext(ks, n - 2);
        } else {
          PosEnds(ks);
        }
        DownSmooth(root, order, q, n - 1, if n > 1 then |ks[n - 2]| else 0, limit, qty);
      } else {
        Dropping(root, order, n - 1, k - 1);
        NextPos(ks, n - 1, k - 1);
        DueBelow(q, s, x);
        var key := ks[n - 1][k - 1];
        if At(q, key) == [] {
          SmoothStep(root, key, DueDown(q, s[..x - 1]), order);
          var r := After(root, DelOp(key), order);
          if r.Some? && FixOf(root, key, order) == IntoLeft {
            DownSmooth(r, order, q, n - 1, |ks[n - 2]|, limit, qty);
          } else if r.Some? {
            DownSmooth(r, order, q, n, k - 1, limit, qty);
          }
        } else if key >= limit {
          DownSmooth(root, order, q, n, k - 1, limit, qty - FilledQty(Fills(Sell, Some(limit), At(q, key), qty)));
        }
      }
    }
  }

  /** An index of one leaf is never disturbed. */
  lemma {:induction false} OneLeafIsSmooth<V>(root: Root<V>, keys: seq<int>, order: int)
    requires order >= 2 && Good(root, order) && (root.Some? ==> root.value.Leaf?)
    ensures SmoothFor(root, keys, order)
    decreases |keys|
  {
    if keys != [] {
      DeleteOk(root, keys[0], order);
      OneLeafIsSmooth(After(root, DelOp(keys[0]), order), keys[1..], order);
    }
    hide Good;
  }

  // ---- whole walks

  /** From the best end of the index. */
  ghost function CourseOf<V>(taker: Side, root: Root<V>, order: int, q: seq<Maker>, limit: int, qty: int): Course
    requires order >= 2 && Good(root, order)
  {
    var ks := KeysOf(root);
    if taker == Buy then WalkUp(root, order, q, false, 0, 0, limit, qty)
    else WalkDown(root, order, q, |ks|, if ks == [] then 0 else |ks[|ks| - 1]|, limit, qty)
  }

  lemma {:induction false} NothingGiven<V>(root: Root<V>, order: int, q: seq<Maker>, limit: int)
    requires order >= 2 && Good(root, order)
    ensures CourseOf(Buy, root, order, q, limit, 0).fills == [] && CourseOf(Sell, root, order, q, limit, 0).fills == []
  {
    hide Good, KeysOf;
  }

  ghost function WaitingFor(taker: Side, q: seq<Maker>, keys: seq<int>): seq<Maker> {
    if taker == Buy then Waiting(q, keys) else WaitingDown(q, keys)
  }

  /** All keys, in order. */
  ghost function AllKeys<V>(root: Root<V>): seq<int> { Strung(KeysOf(root)) }

  ghost function DueFor(taker: Side, q: seq<Maker>, keys: seq<int>): seq<int> {
    if taker == Buy then Due(q, keys) else DueDown(q, keys)
  }

  lemma {:induction false} Starts<V>(root: Root<V>)
    ensures var ks := KeysOf(root); var n := |ks|;
            && Within(ks, 0, 0) && Pos(ks, 0, 0) == 0 && WithinDown(ks, n, if ks == [] then 0 else |ks[n - 1]|)
            && PosDown(ks, n, if ks == [] then 0 else |ks[n - 1]|) == |Strung(ks)|
  {
    var ks := KeysOf(root);
    PosEnds(ks);
    if ks != [] {
      PosNext(ks, |ks| - 1);
    }
    hide KeysOf;
  }

  /** A walk that can be followed to its end gives the orders of the index their due exactly if it runs straight. */
  lemma {:induction false} CourseIff<V>(taker: Side, root: Root<V>, order: int, q: seq<Maker>, limit: int, qty: int)
    requires order >= 2 && Good(root, order) && Positive(q) && qty >= 0
    ensures var c := CourseOf(taker, root, order, q, limit, qty);
            c.ends ==> (c.fills == Fills(taker, Some(limit), WaitingFor(taker, q, Strung(KeysOf(root))), qty) <==> c.straight)
  {
    hide Good, Strung, KeysOf, WalkUp, WalkDown, Fills, Waiting, WaitingDown, Pos;
    Starts(root);
    var ks := KeysOf(root);
    var s := Strung(ks);
    assert s[0..] == s && s[..|s|] == s;
    if taker == Buy {
      UpIff(root, order, q, false, 0, 0, limit, qty);
    } else {
      DownIff(root, order, q, |ks|, if ks == [] then 0 else |ks[|ks| - 1]|, limit, qty);
    }
  }

  lemma {:induction false} SmoothCourse<V>(taker: Side, root: Root<V>, order: int, q: seq<Maker>, limit: int, qty: int)
    requires order >= 2 && Good(root, order) && SmoothFor(root, DueFor(taker, q, AllKeys(root)), order)
    ensures var c := CourseOf(taker, root, order, q, limit, qty); c.ends && c.straight
  {
    hide Good, Strung, KeysOf, WalkUp, WalkDown, Due, DueDown, SmoothFor, Pos;
    Starts(root);
    var ks := KeysOf(root);
    var s := Strung(ks);
    assert s[0..] == s && s[..|s|] == s;
    if taker == Buy {
      UpSmooth(root, order, q, false, 0, 0, limit, qty);
    } else {
      DownSmooth(root, order, q, |ks|, if ks == [] then 0 else |ks[|ks| - 1]|, limit, qty);
    }
  }

  // ---- a look first, and then the walk

  /** The place of the x-th key. */
  lemma {:induction false} FindPlace(ks: seq<seq<int>>, x: nat) returns (n: nat, k: nat)
    requires x < |Strung(ks)|
    ensures n < |ks| && k < |ks[n]| && Pos(ks, n, k) == x && ks[n][k] == Strung(ks)[x]
  {
    if x < |ks[0]| {
      n, k := 0, x;
    } else {
      n, k := FindPlace(ks[1..], x - |ks[0]|);
      n := n + 1;
      assert ks[..n] == [ks[0]] + ks[1..][..n - 1];
      StrungAppend([ks[0]], ks[1..][..n - 1]);
      StrungOne(ks[0]);
    }
    PosAt(ks, n, k);
  }

  /** These are the first keys a walk comes to. */
  ghost predicate Ahead(taker: Side, keys: seq<int>, s: seq<int>) {
    |keys| <= |s| && forall i :: 0 <= i < |keys| ==> keys[i] == s[if taker == Buy then i else |s| - 1 - i]
  }

  ghost function First(taker: Side, s: seq<int>): (x: nat)
    requires s != []
    ensures x < |s|
  {
    if taker == Buy then 0 else |s| - 1
  }

  lemma {:induction false} WithoutFirst(taker: Side, s: seq<int>)
    requires s != []
    ensures Without(s, First(taker, s)) == if taker == Buy then s[1..] else s[..|s| - 1]
  {
  }

  lemma {:induction false} AheadTail(taker: Side, keys: seq<int>, s: seq<int>)
    requires keys != [] && Ahead(taker, keys, s)
    ensures s != [] && keys[0] == s[First(taker, s)] && Ahead(taker, keys[1..], Without(s, First(taker, s)))
  {
    assert keys[0] == s[if taker == Buy then 0 else |s| - 1 - 0];
    WithoutFirst(taker, s);
    hide Without;
  }

  lemma {:induction false} DueFirst(taker: Side, q: seq<Maker>, s: seq<int>)
    requires s != [] && At(q, s[First(taker, s)]) == []
    ensures DueFor(taker, q, s) == [s[First(taker, s)]] + DueFor(taker, q, Without(s, First(taker, s)))
  {
    WithoutFirst(taker, s);
    hide Without, At;
  }

  /** Deleting the first key ahead leaves the others ahead. */
  lemma {:induction false} StepAhead<V>(taker: Side, root: Root<V>, order: int, q: seq<Maker>, keys: seq<int>)
    requires order >= 2 && Good(root, order) && keys != [] && Ahead(taker, keys, AllKeys(root)) && At(q, keys[0]) == []
    ensures var r := After(root, DelOp(keys[0]), order);
            Ahead(taker, keys[1..], AllKeys(r)) && DueFor(taker, q, AllKeys(root)) == [keys[0]] + DueFor(taker, q, AllKeys(r))
  {
    hide Good, Contents, KeysOf, Strung, At, Pos, FixOf, After, Ahead, DueFor, Without, First;
    var s := AllKeys(root);
    AheadTail(taker, keys, s);
    var n, k := FindPlace(KeysOf(root), First(taker, s));
    Dropping(root, order, n, k);
    DueFirst(taker, q, s);
  }

  /** If the deletions of all empty levels disturb no walk, those left after a look do not either. */
  lemma {:induction false} SmoothAfterLook<V>(taker: Side, root: Root<V>, order: int, q: seq<Maker>, keys: seq<int>)
    requires order >= 2 && Good(root, order) && Ahead(taker, keys, AllKeys(root)) && forall i :: 0 <= i < |keys| ==> At(q, keys[i]) == []
    requires SmoothFor(root, DueFor(taker, q, AllKeys(root)), order)
    ensures var r := Looked(root, keys, order, taker == Sell); SmoothFor(r, DueFor(taker, q, AllKeys(r)), order)
    decreases |keys|
  {
    hide Good, AllKeys, At, HollowEnd, DueFor, Smooth, After, Ahead;
    if keys != [] && !HollowEnd(root, taker == Sell) {
      StepAhead(taker, root, order, q, keys);
      var r := After(root, DelOp(keys[0]), order);
      SmoothStep(root, keys[0], DueFor(taker, q, AllKeys(r)), order);
      SmoothAfterLook(taker, r, order, q, keys[1..]);
    }
  }
}
