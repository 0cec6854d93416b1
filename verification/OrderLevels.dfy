/** The price levels of the first engine: orders in doubly linked lists. */
module OrderLevels {
  import opened SortedEntries
  import opened ReferenceBook

  class OrderNode {
    const orderId: string
    const userId: string
    /** The price as an index key, and as the order gave it. */
    const price: int
    const decimalPrice: int
    var remainingQty: int
    var prev: OrderNode?
    var next: OrderNode?
    var priceLevel: PriceLevel?

    constructor (orderId: string, userId: string, price: int, decimalPrice: int, remainingQty: int)
      ensures this.orderId == orderId && this.userId == userId && this.price == price && this.decimalPrice == decimalPrice
      ensures this.remainingQty == remainingQty && prev == null && next == null && priceLevel == null
    {
      this.orderId, this.userId, this.price, this.decimalPrice := orderId, userId, price, decimalPrice;
      this.remainingQty, prev, next, priceLevel := remainingQty, null, null, null;
    }
  }

  ghost function At(c: seq<OrderNode>, i: int): OrderNode? { if 0 <= i < |c| then c[i] else null }

  ghost predicate Linked(c: seq<OrderNode>)
    reads (set n | n in c)`prev, (set n | n in c)`next
  {
    NoDup(c) && forall i :: 0 <= i < |c| ==> c[i].next == At(c, i + 1) && c[i].prev == At(c, i - 1)
  }

  ghost function MakerOf(n: OrderNode): Maker
    reads n`remainingQty
  {
    Maker(n.orderId, n.userId, n.price, n.remainingQty)
  }

  ghost function Makers(c: seq<OrderNode>): seq<Maker>
    reads (set n | n in c)`remainingQty
  {
    if c == [] then [] else [MakerOf(c[0])] + Makers(c[1..])
  }

  lemma {:induction false} MakersAppend(a: seq<OrderNode>, b: seq<OrderNode>)
    ensures Makers(a + b) == Makers(a) + Makers(b)
  {
    var ab := a + b;
    if a == [] {
      assert ab == b;
    } else {
      assert ab[0] == a[0] && ab[1..] == a[1..] + b;
      MakersAppend(a[1..], b);
      Assoc([MakerOf(a[0])], Makers(a[1..]), Makers(b));
    }
  }

  lemma {:induction false} MakersAt(c: seq<OrderNode>)
    ensures |Makers(c)| == |c| && forall i :: 0 <= i < |c| ==> Makers(c)[i] == MakerOf(c[i])
  {
    if c != [] {
      MakersAt(c[1..]);
    }
  }

  twostate lemma {:induction false} MakersSame(c: seq<OrderNode>)
    requires forall n :: n in c ==> n.remainingQty == old(n.remainingQty)
    ensures Makers(c) == old(Makers(c))
  {
    if c != [] {
      MakersSame(c[1..]);
    }
  }

  lemma {:induction false} MakersOne(n: OrderNode)
    ensures Makers([n]) == [MakerOf(n)]
  {
    assert [n][1..] == [];
  }

  lemma {:induction false} TotalAppend(a: seq<Maker>, b: seq<Maker>)
    ensures Total(a + b) == Total(a) + Total(b)
  {
    if a == [] {
      assert a + b == b;
    } else {
      assert (a + b)[0] == a[0] && (a + b)[1..] == a[1..] + b;
      TotalAppend(a[1..], b);
    }
  }

  lemma {:induction false} TotalAround(a: seq<OrderNode>, n: OrderNode, b: seq<OrderNode>)
    ensures Total(Makers(a + [n] + b)) == Total(Makers(a)) + n.remainingQty + Total(Makers(b))
    ensures Total(Makers(a + b)) == Total(Makers(a)) + Total(Makers(b))
  {
    MakersAppend(a + [n], b);
    MakersAppend(a, [n]);
    MakersAppend(a, b);
    MakersOne(n);
    TotalAppend(Makers(a) + [MakerOf(n)], Makers(b));
    TotalAppend(Makers(a), [MakerOf(n)]);
    TotalAppend(Makers(a), Makers(b));
    assert Total([MakerOf(n)]) == n.remainingQty by { assert [MakerOf(n)][1..] == []; }
  }

  /** The pointers around position i skip it. */
  ghost predicate Skipped(c: seq<OrderNode>, i: nat)
    requires i < |c|
    reads (set n | n in c)`prev, (set n | n in c)`next
  {
    && NoDup(c)
    && (forall k :: 0 <= k < |c| && k != i ==> c[k].next == if k + 1 == i then At(c, i + 1) else At(c, k + 1))
    && (forall k :: 0 <= k < |c| && k != i ==> c[k].prev == if k - 1 == i then At(c, i - 1) else At(c, k - 1))
  }

  lemma {:induction false} AtWithout(c: seq<OrderNode>, i: nat, k: int)
    requires i < |c|
    ensures At(c[..i] + c[i + 1..], k) == At(c, if k < i then k else k + 1)
  {
  }

  lemma {:induction false} NoDupWithout(c: seq<OrderNode>, i: nat)
    requires i < |c| && NoDup(c)
    ensures NoDup(c[..i] + c[i + 1..]) && c[i] !in c[..i] + c[i + 1..]
  {
    var d := c[..i] + c[i + 1..];
    assert forall k :: 0 <= k < |d| ==> d[k] == c[if k < i then k else k + 1];
  }

  lemma {:induction false} LinkedWithout(c: seq<OrderNode>, i: nat)
    requires i < |c| && Skipped(c, i)
    ensures Linked(c[..i] + c[i + 1..])
    ensures At(c[..i] + c[i + 1..], 0) == (if i == 0 then At(c, 1) else At(c, 0))
    ensures At(c[..i] + c[i + 1..], |c| - 2) == (if i == |c| - 1 then At(c, |c| - 2) else At(c, |c| - 1))
    ensures c[i] !in c[..i] + c[i + 1..]
  {
    hide At, NoDup;
    var d := c[..i] + c[i + 1..];
    NoDupWithout(c, i);
    AtWithout(c, i, 0);
    AtWithout(c, i, |c| - 2);
    forall k | 0 <= k < |d| ensures d[k].next == At(d, k + 1) && d[k].prev == At(d, k - 1) {
      AtWithout(c, i, k - 1);
      AtWithout(c, i, k + 1);
      WithoutAt(c, i, k);
    }
  }

  lemma {:induction false} WithoutAt(c: seq<OrderNode>, i: nat, k: nat)
    requires i < |c| && k < |c| - 1
    ensures (c[..i] + c[i + 1..])[k] == if k < i then c[k] else c[k + 1]
  {
  }

  lemma {:induction false} AtIs(c: seq<OrderNode>, k: int)
    ensures 0 <= k < |c| ==> At(c, k) == c[k]
    ensures !(0 <= k < |c|) ==> At(c, k) == null
  {
  }

  lemma {:induction false} LinkedWith(c: seq<OrderNode>, node: OrderNode)
    requires NoDup(c) && node !in c && node.next == null && node.prev == At(c, |c| - 1)
    requires forall k :: 0 <= k < |c| ==> c[k].next == (if k == |c| - 1 then node else At(c, k + 1)) && c[k].prev == At(c, k - 1)
    ensures Linked(c + [node])
  {
    var d := c + [node];
    assert forall k :: 0 <= k < |d| ==> d[k] == if k < |c| then c[k] else node;
  }

  class PriceLevel {
    const price: int
    var head: OrderNode?
    var tail: OrderNode?
    var orderCount: int
    var totalQty: int
    ghost var nodes: seq<OrderNode>

    /** The list holds nodes, front to back; count and total are theirs. */
    ghost predicate Valid()
      reads this, set n | n in nodes
    {
      && Linked(nodes) && head == At(nodes, 0) && tail == At(nodes, |nodes| - 1)
      && orderCount == |nodes| && totalQty == Total(Makers(nodes))
      && forall n :: n in nodes ==> n.priceLevel == this && n.price == price
    }

    constructor (price: int)
      ensures this.price == price && Valid() && nodes == []
    {
      this.price, head, tail, orderCount, totalQty, nodes := price, null, null, 0, 0, [];
    }

    predicate IsEmpty()
      reads this
    {
      orderCount == 0
    }

    method Append(node: OrderNode)
      requires Valid() && node !in nodes && node.price == price
      modifies this, node`prev, node`next, node`priceLevel, (set n | n in nodes)`next
      ensures Valid() && nodes == old(nodes) + [node]
    {
      hide Linked, Makers;
      ghost var c := nodes;
      TotalAround(c, node, []);
      assert c + [node] + [] == c + [node] && c + [] == c;
      LinkBehind(node);
      node.priceLevel := this;
      orderCount := orderCount + 1;
      totalQty := totalQty + node.remainingQty;
    }

    method LinkBehind(node: OrderNode)
      requires Linked(nodes) && head == At(nodes, 0) && tail == At(nodes, |nodes| - 1) && node !in nodes
      modifies this`head, this`tail, this`nodes, node`prev, node`next, (set n | n in nodes)`next
      ensures Linked(nodes) && head == At(nodes, 0) && tail == At(nodes, |nodes| - 1) && nodes == old(nodes) + [node]
    {
      node.prev := tail;
      node.next := null;
      if tail != null {
        tail.next := node;
      } else {
        head := node;
      }
      tail := node;
      LinkedWith(nodes, node);
      nodes := nodes + [node];
      hide Linked;
    }

    method Remove(node: OrderNode, ghost i: nat)
      requires Valid() && i < |nodes| && nodes[i] == node
      modifies this, node`prev, node`next, node`priceLevel, (set n | n in nodes)`next, (set n | n in nodes)`prev
      ensures Valid() && nodes == old(nodes)[..i] + old(nodes)[i + 1..] && node.priceLevel == null
    {
      hide Linked, Makers;
      ghost var c := nodes;
      assert c == c[..i] + [node] + c[i + 1..];
      TotalAround(c[..i], node, c[i + 1..]);
      Unlink(node, i);
      orderCount := orderCount - 1;
      totalQty := totalQty - node.remainingQty;
      node.prev := null;
      node.next := null;
      node.priceLevel := null;
    }

    method Unlink(node: OrderNode, ghost i: nat)
      requires Linked(nodes) && head == At(nodes, 0) && tail == At(nodes, |nodes| - 1) && i < |nodes| && nodes[i] == node
      modifies this`head, this`tail, this`nodes, (set n | n in nodes)`next, (set n | n in nodes)`prev
      ensures nodes == old(nodes)[..i] + old(nodes)[i + 1..] && node !in nodes
      ensures Linked(nodes) && head == At(nodes, 0) && tail == At(nodes, |nodes| - 1)
    {
      hide At;
      ghost var c := nodes;
      AtIs(c, i - 1);
      AtIs(c, i + 1);
      if node.prev != null {
        node.prev.next := node.next;
      } else {
        head := node.next;
      }
      if node.next != null {
        node.next.prev := node.prev;
      } else {
        tail := node.prev;
      }
      LinkedWithout(c, i);
      nodes := c[..i] + c[i + 1..];
      hide Linked;
    }
  }
}
