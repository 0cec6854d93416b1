/** The levels of one side of the first engine's book, best price first, and the orders in them. */
module Ladders {
  import opened SortedEntries
  import opened ReferenceBook
  import opened PriorityLists
  import opened OrderLevels

  /** All orders of some levels, level by level and front to back. */
  ghost function NodesOf(ls: seq<PriceLevel>): seq<OrderNode>
    reads (set l | l in ls)`nodes
  {
    if ls == [] then [] else ls[0].nodes + NodesOf(ls[1..])
  }

  ghost predicate Sorted(taker: Side, ls: seq<PriceLevel>) {
    forall i, j :: 0 <= i < j < |ls| ==> Better(taker, ls[i].price, ls[j].price)
  }

  ghost predicate AllValid(ls: seq<PriceLevel>)
    reads set l | l in ls, set l, n | l in ls && n in l.nodes :: n
  {
    forall l :: l in ls ==> l.Valid()
  }

  ghost function CountEmpty(ls: seq<PriceLevel>): nat
    reads (set l | l in ls)`nodes
  {
    if ls == [] then 0 else (if ls[0].nodes == [] then 1 else 0) + CountEmpty(ls[1..])
  }

  lemma {:induction false} NodesAppend(a: seq<PriceLevel>, b: seq<PriceLevel>)
    ensures NodesOf(a + b) == NodesOf(a) + NodesOf(b)
    ensures CountEmpty(a + b) == CountEmpty(a) + CountEmpty(b)
  {
    var ab := a + b;
    if a == [] {
      assert ab == b;
    } else {
      assert ab[0] == a[0] && ab[1..] == a[1..] + b;
      NodesAppend(a[1..], b);
      Assoc(a[0].nodes, NodesOf(a[1..]), NodesOf(b));
    }
  }

  lemma {:induction false} NodesAround(a: seq<PriceLevel>, l: PriceLevel, b: seq<PriceLevel>)
    ensures NodesOf(a + [l] + b) == NodesOf(a) + l.nodes + NodesOf(b)
    ensures CountEmpty(a + [l] + b) == CountEmpty(a) + (if l.nodes == [] then 1 else 0) + CountEmpty(b)
  {
    NodesAppend(a + [l], b);
    NodesAppend(a, [l]);
    NodesOne(l);
  }

  lemma {:induction false} NodesOne(l: PriceLevel)
    ensures NodesOf([l]) == l.nodes && CountEmpty([l]) == if l.nodes == [] then 1 else 0
  {
    assert [l][1..] == [];
  }

  lemma {:induction false} InNodes(ls: seq<PriceLevel>, n: OrderNode)
    ensures n in NodesOf(ls) <==> exists l :: l in ls && n in l.nodes
  {
    if ls != [] {
      InNodes(ls[1..], n);
      if n in NodesOf(ls) && n !in ls[0].nodes {
        var l :| l in ls[1..] && n in l.nodes;
        assert l in ls;
      }
      if l :| l in ls && n in l.nodes {
        if l != ls[0] {
          assert l in ls[1..];
        }
      }
    }
  }

  /** An order in the ladder is in the level it names, and that level is in the ladder. */
  lemma {:induction false} NodeInItsLevel(ls: seq<PriceLevel>, n: OrderNode)
    requires AllValid(ls) && n in NodesOf(ls)
    ensures n.priceLevel != null && n.priceLevel in ls && n in n.priceLevel.nodes && n.price == n.priceLevel.price
  {
    InNodes(ls, n);
  }

  lemma {:induction false} MakersWithin(ls: seq<PriceLevel>)
    requires AllValid(ls)
    ensures forall m :: m in Makers(NodesOf(ls)) ==> exists l :: l in ls && l.price == m.price
  {
    var ns := NodesOf(ls);
    MakersAt(ns);
    forall m | m in Makers(ns) ensures exists l :: l in ls && l.price == m.price {
      var i :| 0 <= i < |Makers(ns)| && Makers(ns)[i] == m;
      NodeInItsLevel(ls, ns[i]);
      assert ns[i].priceLevel in ls && ns[i].priceLevel.price == m.price;
    }
  }

  // ---- the place of a price

  ghost function PlaceOf(taker: Side, ls: seq<PriceLevel>, price: int): (i: nat)
    ensures i <= |ls| && forall j :: 0 <= j < i ==> Better(taker, ls[j].price, price)
    ensures i < |ls| ==> !Better(taker, ls[i].price, price)
  {
    if ls == [] || !Better(taker, ls[0].price, price) then 0 else 1 + PlaceOf(taker, ls[1..], price)
  }

  lemma {:induction false} PlaceOfLevel(taker: Side, ls: seq<PriceLevel>, l: PriceLevel)
    requires Sorted(taker, ls) && l in ls
    ensures var i := PlaceOf(taker, ls, l.price); i < |ls| && ls[i] == l && l !in ls[..i] && l !in ls[i + 1..]
  {
    if ls[0] != l {
      var k :| 0 <= k < |ls| && ls[k] == l;
      assert ls[1..][k - 1] == l;
      PlaceOfLevel(taker, ls[1..], l);
    }
  }

  /** Around the place of a price the other orders are strictly better and strictly worse. */
  lemma {:induction false} AroundPlace(taker: Side, ls: seq<PriceLevel>, i: nat, price: int)
    requires Sorted(taker, ls) && i < |ls| && ls[i].price == price && AllValid(ls)
    ensures forall m :: m in Makers(NodesOf(ls[..i])) ==> Better(taker, m.price, price)
    ensures forall m :: m in Makers(NodesOf(ls[i + 1..])) ==> Better(taker, price, m.price)
  {
    assert AllValid(ls[..i]) && AllValid(ls[i + 1..]);
    MakersWithin(ls[..i]);
    MakersWithin(ls[i + 1..]);
  }

  lemma {:induction false} LevelMakers(l: PriceLevel)
    requires l.Valid()
    ensures forall m :: m in Makers(l.nodes) ==> m.price == l.price
  {
    MakersAt(l.nodes);
  }

  lemma {:induction false} MakersAround(a: seq<PriceLevel>, l: PriceLevel, b: seq<PriceLevel>)
    ensures Makers(NodesOf(a + [l] + b)) == Makers(NodesOf(a)) + Makers(l.nodes) + Makers(NodesOf(b))
  {
    NodesAround(a, l, b);
    MakersAppend(NodesOf(a) + l.nodes, NodesOf(b));
    MakersAppend(NodesOf(a), l.nodes);
  }

  /** An order put at the back of its level takes its place in the whole list. */
  lemma {:induction false} EnqueueInLevel(taker: Side, ls: seq<PriceLevel>, i: nat, m: Maker)
    requires Sorted(taker, ls) && i < |ls| && ls[i].price == m.price && AllValid(ls)
    ensures Enqueue(taker, Makers(NodesOf(ls)), m)
         == Makers(NodesOf(ls[..i])) + (Makers(ls[i].nodes) + [m]) + Makers(NodesOf(ls[i + 1..]))
  {
    var a, l, b := ls[..i], ls[i], ls[i + 1..];
    assert ls == a + [l] + b;
    MakersAround(a, l, b);
    AroundPlace(taker, ls, i, m.price);
    LevelMakers(l);
    hide NodesOf, Makers, Enqueue, AllValid;
    EnqueueBehind(taker, Makers(NodesOf(a)) + Makers(l.nodes), Makers(NodesOf(b)), m);
    Assoc(Makers(NodesOf(a)), Makers(l.nodes), [m]);
  }

  /** Taking out node j of a list whose orders have different ids. */
  lemma {:induction false} RemoveNode(c: seq<OrderNode>, j: nat, price: int)
    requires j < |c| && (forall k :: 0 <= k < j ==> c[k].orderId != c[j].orderId) && c[j].price == price
    ensures Remove(Makers(c), c[j].orderId, price) == Makers(c[..j] + c[j + 1..])
  {
    var d := c[..j] + c[j + 1..];
    if j == 0 {
      assert d == c[1..];
    } else {
      assert c[0].orderId != c[j].orderId;
      assert d[0] == c[0] && d[1..] == c[1..][..j - 1] + c[1..][j..];
      RemoveNode(c[1..], j - 1, price);
    }
  }

  // ---- inserting and dropping levels

  lemma {:induction false} InsertSorted(taker: Side, ls: seq<PriceLevel>, l: PriceLevel)
    requires Sorted(taker, ls) && forall k :: k in ls ==> k.price != l.price
    ensures var i := PlaceOf(taker, ls, l.price); Sorted(taker, ls[..i] + [l] + ls[i..])
  {
    var i := PlaceOf(taker, ls, l.price);
    forall j | i <= j < |ls| ensures Better(taker, l.price, ls[j].price) {
      assert ls[i] in ls;
      assert i < j ==> Better(taker, ls[i].price, ls[j].price);
    }
  }

  lemma {:induction false} DropSorted(taker: Side, ls: seq<PriceLevel>, i: nat)
    requires Sorted(taker, ls) && i < |ls|
    ensures var r := ls[..i] + ls[i + 1..]; Sorted(taker, r) && forall l :: l in r <==> l in ls && l != ls[i]
  {
    var r := ls[..i] + ls[i + 1..];
    assert forall j :: 0 <= j < |r| ==> r[j] == ls[if j < i then j else j + 1];
    forall l ensures l in r <==> l in ls && l != ls[i] {
      if l in ls && l != ls[i] {
        var k :| 0 <= k < |ls| && ls[k] == l;
        assert r[if k < i then k else k - 1] == l;
      }
    }
  }

  lemma {:induction false} DropEmpty(ls: seq<PriceLevel>, i: nat)
    requires i < |ls| && ls[i].nodes == []
    ensures var r := ls[..i] + ls[i + 1..]; NodesOf(r) == NodesOf(ls) && CountEmpty(r) == CountEmpty(ls) - 1
  {
    var a, b := ls[..i], ls[i + 1..];
    assert ls == a + [ls[i]] + b;
    NodesAround(a, ls[i], b);
    NodesAppend(a, b);
    assert NodesOf(a) + [] == NodesOf(a);
  }

  // ---- single orders within the whole list

  lemma {:induction false} NodesDistinct(taker: Side, ls: seq<PriceLevel>)
    requires AllValid(ls) && Sorted(taker, ls)
    ensures NoDup(NodesOf(ls))
  {
    if ls != [] {
      NodesDistinct(taker, ls[1..]);
      var c := NodesOf(ls[1..]);
      assert ls[0].Valid() && AllValid(ls[1..]);
      forall i | 0 <= i < |c| ensures c[i] !in ls[0].nodes {
        NodeInItsLevel(ls[1..], c[i]);
        var k :| 0 <= k < |ls[1..]| && ls[1..][k] == c[i].priceLevel;
        assert Better(taker, ls[0].price, ls[k + 1].price) && c[i].priceLevel == ls[k + 1];
      }
      NoDupAppend(ls[0].nodes, c);
    }
  }

  lemma {:induction false} NoDupAppend(a: seq<OrderNode>, b: seq<OrderNode>)
    requires NoDup(a) && NoDup(b) && forall i :: 0 <= i < |b| ==> b[i] !in a
    ensures NoDup(a + b)
  {
    var ab := a + b;
    forall i, j | 0 <= i < j < |ab| ensures ab[i] != ab[j] {
      if i < |a| <= j {
        assert ab[j] == b[j - |a|] && ab[i] in a;
      }
    }
  }

  /** The first order of all is the first of its level, and the levels before are empty. */
  lemma {:induction false} FirstIsFront(taker: Side, ls: seq<PriceLevel>)
    requires AllValid(ls) && Sorted(taker, ls) && NodesOf(ls) != []
    ensures var n := NodesOf(ls)[0];
            && n.priceLevel != null && n.priceLevel in ls
            && var i := PlaceOf(taker, ls, n.priceLevel.price);
               i < |ls| && ls[i] == n.priceLevel && n.priceLevel.nodes != [] && n.priceLevel.nodes[0] == n && NodesOf(ls[..i]) == []
  {
    var n := NodesOf(ls)[0];
    NodeInItsLevel(ls, n);
    PlaceOfLevel(taker, ls, n.priceLevel);
    var i := PlaceOf(taker, ls, n.priceLevel.price);
    assert ls == ls[..i] + [ls[i]] + ls[i + 1..];
    NodesAround(ls[..i], ls[i], ls[i + 1..]);
    if NodesOf(ls[..i]) != [] {
      assert AllValid(ls[..i]);
      NodeInItsLevel(ls[..i], n);
    }
  }

  lemma {:induction false} WithoutMiddle<T>(a: seq<T>, l: seq<T>, b: seq<T>, j: nat)
    requires j < |l|
    ensures a + (l[..j] + l[j + 1..]) + b == (a + l + b)[..|a| + j] + (a + l + b)[|a| + j + 1..]
  {
  }

  // ---- the same levels in the order of the index

  ghost function Reversed(ls: seq<PriceLevel>): seq<PriceLevel> {
    if ls == [] then [] else Reversed(ls[1..]) + [ls[0]]
  }

  lemma {:induction false} ReversedAt(ls: seq<PriceLevel>)
    ensures |Reversed(ls)| == |ls| && forall i :: 0 <= i < |ls| ==> Reversed(ls)[i] == ls[|ls| - 1 - i]
    ensures forall l :: l in Reversed(ls) <==> l in ls
  {
    if ls != [] {
      ReversedAt(ls[1..]);
      assert forall l :: l in ls <==> l == ls[0] || l in ls[1..];
    }
  }

  lemma {:induction false} ReversedAppend(a: seq<PriceLevel>, b: seq<PriceLevel>)
    ensures Reversed(a + b) == Reversed(b) + Reversed(a)
  {
    var ab := a + b;
    if a == [] {
      assert ab == b;
    } else {
      assert ab[0] == a[0] && ab[1..] == a[1..] + b;
      ReversedAppend(a[1..], b);
    }
  }

  lemma {:induction false} ReversedTwice(ls: seq<PriceLevel>)
    ensures Reversed(Reversed(ls)) == ls
  {
    ReversedAt(ls);
    ReversedAt(Reversed(ls));
  }

  lemma {:induction false} ReversedSorted(ls: seq<PriceLevel>)
    requires Sorted(Sell, ls)
    ensures Sorted(Buy, Reversed(ls))
  {
    ReversedAt(ls);
  }

  /** Levels in strict order are determined by which they are. */
  lemma {:induction false} SameLevels(a: seq<PriceLevel>, b: seq<PriceLevel>)
    requires Sorted(Buy, a) && Sorted(Buy, b) && (forall l :: l in a <==> l in b)
    ensures a == b
  {
    if a == [] {
      if b != [] {
        FirstLevel(b);
      }
    } else if b == [] {
      FirstLevel(a);
    } else {
      assert a[0] in b && b[0] in a;
      assert a[0] == b[0];
      forall l ensures l in a[1..] <==> l in b[1..] {
        InTail(a, l);
        InTail(b, l);
      }
      SameLevels(a[1..], b[1..]);
    }
  }

  lemma {:induction false} InTail(ls: seq<PriceLevel>, l: PriceLevel)
    requires Sorted(Buy, ls) && ls != []
    ensures l in ls[1..] <==> l in ls && l != ls[0]
  {
    if l in ls[1..] {
      var i :| 0 <= i < |ls[1..]| && ls[1..][i] == l;
      assert Better(Buy, ls[0].price, ls[i + 1].price);
    }
  }

  lemma {:induction false} FirstLevel(ls: seq<PriceLevel>)
    requires ls != []
    ensures ls[0] in ls
  {
  }
}
