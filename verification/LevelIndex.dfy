/** How the levels of one side of the first engine's book are found: by price in a map, and in order in the index. */
module LevelIndex {
  import opened SortedEntries
  import opened ReferenceBook
  import opened OrderLevels
  import opened Ladders
  import R = BPlusRuns
  import B = BPlusRepair
  import E = BPlusEnds
  import W = Walks

  // ---- the price map

  /** Price map and ladder hold the same levels under their prices, and the keys list the map's prices. */
  ghost predicate IndexedBy(taker: Side, ladder: seq<PriceLevel>, priceMap: map<int, PriceLevel>, priceKeys: seq<int>) {
    && Sorted(taker, ladder)
    && (forall l :: l in ladder ==> l.price in priceMap && priceMap[l.price] == l)
    && (forall p :: p in priceMap ==> priceMap[p] in ladder && priceMap[p].price == p)
    && (forall i, j :: 0 <= i < j < |priceKeys| ==> priceKeys[i] != priceKeys[j])
    && (forall p :: p in priceKeys <==> p in priceMap)
  }

  lemma {:induction false} KeysAreMapped(taker: Side, ladder: seq<PriceLevel>, priceMap: map<int, PriceLevel>, priceKeys: seq<int>)
    requires IndexedBy(taker, ladder, priceMap, priceKeys)
    ensures forall p :: p in priceMap ==> p in priceKeys
    ensures forall j :: 0 <= j < |priceKeys| ==> priceKeys[j] in priceMap
    ensures forall i, j :: 0 <= i < j < |priceKeys| ==> priceKeys[i] != priceKeys[j]
  {
    assert forall j :: 0 <= j < |priceKeys| ==> priceKeys[j] in priceKeys;
  }

  lemma {:induction false} IndexedWith(taker: Side, ladder: seq<PriceLevel>, priceMap: map<int, PriceLevel>, priceKeys: seq<int>,
                                       level: PriceLevel)
    requires IndexedBy(taker, ladder, priceMap, priceKeys) && level.price !in priceMap
    ensures var i := PlaceOf(taker, ladder, level.price);
            IndexedBy(taker, ladder[..i] + [level] + ladder[i..], priceMap[level.price := level], priceKeys + [level.price])
  {
    var i := PlaceOf(taker, ladder, level.price);
    InsertSorted(taker, ladder, level);
    OneMore(ladder, i, level);
    KeyAppended(priceKeys, level.price);
    hide Sorted;
  }

  lemma {:induction false} OneMore(ladder: seq<PriceLevel>, i: nat, level: PriceLevel)
    requires i <= |ladder|
    ensures forall l :: l in ladder[..i] + [level] + ladder[i..] <==> l in ladder || l == level
  {
    assert ladder == ladder[..i] + ladder[i..];
  }

  lemma {:induction false} KeyAppended(keys: seq<int>, key: int)
    requires key !in keys && forall i, j :: 0 <= i < j < |keys| ==> keys[i] != keys[j]
    ensures var r := keys + [key];
            (forall i, j :: 0 <= i < j < |r| ==> r[i] != r[j]) && forall p :: p in r <==> p in keys || p == key
  {
  }

  function DropKey(keys: seq<int>, key: int): seq<int> {
    if keys == [] then [] else if keys[0] == key then keys[1..] else [keys[0]] + DropKey(keys[1..], key)
  }

  lemma {:induction false} DropKeyMeans(keys: seq<int>, key: int)
    requires forall i, j :: 0 <= i < j < |keys| ==> keys[i] != keys[j]
    ensures var r := DropKey(keys, key);
            (forall i, j :: 0 <= i < j < |r| ==> r[i] != r[j]) && forall p :: p in r <==> p in keys && p != key
  {
    if keys != [] {
      assert forall p :: p in keys <==> p == keys[0] || p in keys[1..];
      if keys[0] == key {
        assert forall i :: 0 <= i < |keys[1..]| ==> keys[1..][i] == keys[i + 1];
      } else {
        var r := DropKey(keys[1..], key);
        DropKeyMeans(keys[1..], key);
        assert forall i :: 0 <= i < |r| ==> r[i] in keys[1..];
      }
    }
  }

  lemma {:induction false} IndexedWithout(taker: Side, ladder: seq<PriceLevel>, priceMap: map<int, PriceLevel>, priceKeys: seq<int>,
                                          i: nat)
    requires IndexedBy(taker, ladder, priceMap, priceKeys) && i < |ladder|
    ensures var p := ladder[i].price;
            p in priceMap && IndexedBy(taker, ladder[..i] + ladder[i + 1..], priceMap - {p}, DropKey(priceKeys, p))
  {
    DropSorted(taker, ladder, i);
    DropKeyMeans(priceKeys, ladder[i].price);
    hide Sorted, DropKey;
  }

  // ---- keys that are no longer mapped

  ghost function Missing(keys: seq<int>, m: map<int, PriceLevel>): seq<int> {
    if keys == [] then [] else (if keys[0] in m then [] else [keys[0]]) + Missing(keys[1..], m)
  }

  lemma {:induction false} MissingAppend(a: seq<int>, b: seq<int>, m: map<int, PriceLevel>)
    ensures Missing(a + b, m) == Missing(a, m) + Missing(b, m)
  {
    if a == [] {
      assert a + b == b;
    } else {
      assert (a + b)[0] == a[0] && (a + b)[1..] == a[1..] + b;
      MissingAppend(a[1..], b, m);
    }
  }

  lemma {:induction false} MissingIn(keys: seq<int>, m: map<int, PriceLevel>)
    requires forall i :: 0 <= i < |keys| ==> keys[i] in m
    ensures Missing(keys, m) == []
  {
    if keys != [] {
      assert keys[0] in m;
      MissingIn(keys[1..], m);
    }
  }

  lemma {:induction false} MissingSame(keys: seq<int>, m: map<int, PriceLevel>, key: int)
    requires key !in keys
    ensures Missing(keys, m - {key}) == Missing(keys, m)
  {
    if keys != [] {
      MissingSame(keys[1..], m, key);
    }
  }

  /** The next key, mapped as yet, is the only one of these that may go missing. */
  lemma {:induction false} StillMissing(keys: seq<int>, i: nat, m: map<int, PriceLevel>)
    requires i < |keys| && keys[i] in m && forall j, k :: 0 <= j < k < |keys| ==> keys[j] != keys[k]
    ensures Missing(keys[..i + 1], m) == Missing(keys[..i], m)
    ensures Missing(keys[..i + 1], m - {keys[i]}) == Missing(keys[..i], m) + [keys[i]]
  {
    assert keys[..i + 1] == keys[..i] + [keys[i]];
    MissingAppend(keys[..i], [keys[i]], m);
    MissingAppend(keys[..i], [keys[i]], m - {keys[i]});
    MissingSame(keys[..i], m, keys[i]);
    assert [keys[i]][1..] == [];
  }

  // ---- the levels in the order of the index

  ghost function Vals(es: Entries<PriceLevel>): (ls: seq<PriceLevel>)
    ensures |ls| == |es| && forall i :: 0 <= i < |es| ==> ls[i] == es[i].1
  {
    if es == [] then [] else [es[0].1] + Vals(es[1..])
  }

  /** The entries of the index are the levels in order. */
  lemma {:induction false} EntriesAreLevels(es: Entries<PriceLevel>, taker: Side, ladder: seq<PriceLevel>, priceMap: map<int, PriceLevel>,
                                            priceKeys: seq<int>)
    requires Ascending(es) && ToMap(es) == priceMap && IndexedBy(taker, ladder, priceMap, priceKeys)
    ensures Vals(es) == if taker == Buy then ladder else Reversed(ladder)
    ensures forall i :: 0 <= i < |es| ==> es[i].1.price == es[i].0
  {
    var a := if taker == Buy then ladder else Reversed(ladder);
    ReversedAt(ladder);
    if taker == Sell {
      ReversedSorted(ladder);
    }
    MapDomain(es);
    assert forall i :: 0 <= i < |es| ==> es[i].1.price == es[i].0;
    forall l ensures l in Vals(es) <==> l in a {
      if l in a {
        var i :| 0 <= i < |es| && es[i].0 == l.price;
        assert Vals(es)[i] == l;
      }
    }
    SameLevels(Vals(es), a);
  }

  /** The prices, from the last level to the first. */
  ghost function BackPrices(ls: seq<PriceLevel>): (ps: seq<int>)
    ensures |ps| == |ls| && forall i :: 0 <= i < |ls| ==> ps[i] == ls[|ls| - 1 - i].price
  {
    if ls == [] then [] else BackPrices(ls[1..]) + [ls[0].price]
  }

  ghost function Prices(ls: seq<PriceLevel>): (ps: seq<int>)
    ensures |ps| == |ls| && forall i :: 0 <= i < |ls| ==> ps[i] == ls[i].price
  {
    if ls == [] then [] else [ls[0].price] + Prices(ls[1..])
  }

  /** So the leaves of the index list the prices, best first for a buyer and best last for a seller. */
  lemma {:induction false} KeysArePrices(root: R.Root<PriceLevel>, order: int, taker: Side, ladder: seq<PriceLevel>,
                                         priceMap: map<int, PriceLevel>, priceKeys: seq<int>)
    requires order >= 2 && R.Good(root, order) && ToMap(R.Contents(root)) == priceMap && IndexedBy(taker, ladder, priceMap, priceKeys)
    ensures B.Strung(B.KeysOf(root)) == if taker == Buy then Prices(ladder) else BackPrices(ladder)
  {
    hide R.Good, R.Contents, B.KeysOf, B.Strung, ToMap, IndexedBy, Vals;
    R.GoodIsSound(root, order);
    B.KeysAscend(root, order);
    var es := R.Contents(root);
    EntriesAreLevels(es, taker, ladder, priceMap, priceKeys);
    ReversedAt(ladder);
    assert forall i :: 0 <= i < |es| ==> Vals(es)[i] == es[i].1;
  }

  // ---- the orders at each price

  /** The queue has the orders of these levels under their prices. */
  ghost predicate Lists(q: seq<Maker>, ls: seq<PriceLevel>)
    reads (set l | l in ls)`nodes, (set l, n | l in ls && n in l.nodes :: n)`remainingQty
  {
    forall l :: l in ls ==> W.At(q, l.price) == Makers(l.nodes)
  }

  lemma {:induction false} QueueLists(taker: Side, ls: seq<PriceLevel>)
    requires Sorted(taker, ls) && AllValid(ls)
    ensures Lists(Makers(NodesOf(ls)), ls)
  {
    forall l | l in ls ensures W.At(Makers(NodesOf(ls)), l.price) == Makers(l.nodes) {
      ListedAt(taker, ls, l);
    }
  }

  lemma {:induction false} ListedAt(taker: Side, ls: seq<PriceLevel>, l: PriceLevel)
    requires Sorted(taker, ls) && AllValid(ls) && l in ls
    ensures W.At(Makers(NodesOf(ls)), l.price) == Makers(l.nodes)
  {
    hide Makers, PriceLevel.Valid, W.At;
    var rest := ls[1..];
    MakersAppend(ls[0].nodes, NodesOf(rest));
    W.AtAppend(Makers(ls[0].nodes), Makers(NodesOf(rest)), l.price);
    LevelMakers(ls[0]);
    W.AtOnly(Makers(ls[0].nodes), ls[0].price, l.price);
    if l == ls[0] {
      MakersWithin(rest);
      NotAmong(taker, ls);
      NoneAt(Makers(NodesOf(rest)), l.price);
    } else {
      ListedAt(taker, rest, l);
      NotAmong(taker, ls);
    }
  }

  lemma {:induction false} NotAmong(taker: Side, ls: seq<PriceLevel>)
    requires Sorted(taker, ls) && ls != []
    ensures Sorted(taker, ls[1..]) && forall l :: l in ls[1..] ==> l in ls && l.price != ls[0].price
  {
    forall l | l in ls[1..] ensures l in ls && l.price != ls[0].price {
      var i :| 0 <= i < |ls| - 1 && ls[1..][i] == l;
      assert Better(taker, ls[0].price, ls[i + 1].price);
    }
  }

  lemma {:induction false} NoneAt(q: seq<Maker>, price: int)
    requires forall m :: m in q ==> m.price != price
    ensures W.At(q, price) == []
  {
    if q != [] {
      NoneAt(q[1..], price);
    }
  }

  lemma {:induction false} NoMakers(c: seq<OrderNode>)
    ensures Makers(c) == [] <==> c == []
  {
  }

  /** In the order of the walk they make up the whole queue. */
  lemma {:induction false} WaitingIsQueue(q: seq<Maker>, ls: seq<PriceLevel>)
    requires Lists(q, ls)
    ensures W.Waiting(q, Prices(ls)) == Makers(NodesOf(ls)) && W.WaitingDown(q, BackPrices(ls)) == Makers(NodesOf(ls))
  {
    if ls != [] {
      WaitingIsQueue(q, ls[1..]);
      MakersAppend(ls[0].nodes, NodesOf(ls[1..]));
      var ps, n := BackPrices(ls), |ls| - 1;
      assert ps[..n] == BackPrices(ls[1..]) && Prices(ls)[1..] == Prices(ls[1..]);
      hide W.At;
    }
  }

  /** The prices of the empty levels, in the order of the walk. */
  ghost function Due(ls: seq<PriceLevel>): seq<int>
    reads (set l | l in ls)`nodes
  {
    if ls == [] then [] else (if ls[0].nodes == [] then [ls[0].price] else []) + Due(ls[1..])
  }

  lemma {:induction false} DueStep(ls: seq<PriceLevel>)
    requires ls != []
    ensures Due(ls) == if ls[0].nodes == [] then [ls[0].price] + Due(ls[1..]) else Due(ls[1..])
  {
  }

  lemma {:induction false} DueAreEmpty(ls: seq<PriceLevel>)
    ensures forall key :: key in Due(ls) ==> exists l :: l in ls && l.price == key && l.nodes == []
    ensures CountEmpty(ls) == |Due(ls)|
  {
    if ls != [] {
      DueAreEmpty(ls[1..]);
    }
  }

  lemma {:induction false} DueIs(q: seq<Maker>, ls: seq<PriceLevel>)
    requires Lists(q, ls)
    ensures W.Due(q, Prices(ls)) == Due(ls) && W.DueDown(q, BackPrices(ls)) == Due(ls)
  {
    if ls != [] {
      DueIs(q, ls[1..]);
      NoMakers(ls[0].nodes);
      var ps, n := BackPrices(ls), |ls| - 1;
      assert ps[..n] == BackPrices(ls[1..]) && Prices(ls)[1..] == Prices(ls[1..]);
      hide W.At, Makers;
    }
  }

  // ---- the empty levels at the best end

  /** The prices of the empty levels before the first level with orders. */
  ghost function Leading(ls: seq<PriceLevel>): seq<int>
    reads (set l | l in ls)`nodes
  {
    if ls == [] || ls[0].nodes != [] then [] else [ls[0].price] + Leading(ls[1..])
  }

  lemma {:induction false} LeadingAt(ls: seq<PriceLevel>)
    ensures var m := |Leading(ls)|;
            && m <= |ls| && (m < |ls| ==> ls[m].nodes != [])
            && forall i :: 0 <= i < m ==> ls[i].nodes == [] && Leading(ls)[i] == ls[i].price
  {
    if ls != [] && ls[0].nodes == [] {
      LeadingAt(ls[1..]);
      assert forall i :: 0 < i < |Leading(ls)| ==> Leading(ls)[i] == Leading(ls[1..])[i - 1] && ls[i] == ls[1..][i - 1];
    }
  }

  /** They are the outermost keys of the index. */
  lemma {:induction false} LeadingIsOutermost(es: Entries<PriceLevel>, taker: Side, ladder: seq<PriceLevel>, priceMap: map<int, PriceLevel>,
                                              priceKeys: seq<int>)
    requires Ascending(es) && ToMap(es) == priceMap && IndexedBy(taker, ladder, priceMap, priceKeys)
    ensures |es| == |ladder| && E.Outermost(Leading(ladder), es, taker == Sell)
    ensures forall i :: 0 <= i < |es| ==> LevelAt(es, i, taker == Sell) == ladder[i]
  {
    hide IndexedBy, ToMap, Vals, Leading;
    EntriesAreLevels(es, taker, ladder, priceMap, priceKeys);
    ReversedAt(ladder);
    LeadingAt(ladder);
    assert forall i :: 0 <= i < |es| ==> Vals(es)[i] == es[i].1;
  }

  ghost function LevelAt(es: Entries<PriceLevel>, i: nat, top: bool): PriceLevel
    requires i < |es|
  {
    if top then es[|es| - 1 - i].1 else es[i].1
  }
}
