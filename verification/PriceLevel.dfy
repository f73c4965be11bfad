/**
 An order node, a price level, and the intrusive doubly linked FIFO that threads the orders resting
 at one price. Links are slots of the order pool; NIL is the null link.
 */
module PriceLevels {
  import opened CoreTypes
  import opened Pools

  const NIL: int := -1

  datatype Node = Node(data: OrderRec, prev: int, next: int)

  datatype Level = Level(price: int, aggregated: int, head: int, tail: int)

  const BLANK_NODE := Node(OrderRec(0, 0, Buy, Limit, 0, 0, 0, 0, New), NIL, NIL)
  const BLANK_LEVEL := Level(0, 0, NIL, NIL)

  /** head and tail end a doubly linked, duplicate-free list whose slots in order are q. */
  ghost predicate Fifo(nodes: seq<Node>, lv: Level, q: seq<nat>) {
    && (forall i :: 0 <= i < |q| ==> q[i] < |nodes|)
    && lv.head == (if q == [] then NIL else q[0])
    && lv.tail == (if q == [] then NIL else q[|q| - 1])
    && (forall i {:trigger nodes[q[i]]} :: 0 <= i < |q| ==> nodes[q[i]].prev == (if i == 0 then NIL else q[i - 1]))
    && (forall i {:trigger nodes[q[i]]} :: 0 <= i < |q| ==>
          nodes[q[i]].next == (if i == |q| - 1 then NIL else q[i + 1]))
    && (forall i, j :: 0 <= i < j < |q| ==> q[i] != q[j])
  }

  /** Only links changed between the two pools, and only those of the named slots. */
  ghost predicate Relinked(before: seq<Node>, after: seq<Node>, touched: set<nat>) {
    && SameData(before, after)
    && (forall i :: 0 <= i < |after| && i !in touched ==> after[i] == before[i])
  }

  ghost predicate SameData(before: seq<Node>, after: seq<Node>) {
    |before| == |after| && forall i :: 0 <= i < |after| ==> after[i].data == before[i].data
  }

  ghost function Slots(q: seq<nat>): set<nat> {
    set i | i in q
  }

  lemma EmptyFifo(nodes: seq<Node>, price: int)
    ensures Fifo(nodes, BLANK_LEVEL.(price := price), [])
  {
  }

  method FifoPush(orders: Pool<Node>, levels: Pool<Level>, l: nat, o: nat, ghost q: seq<nat>)
    requires l < |levels.slots| && o < |orders.slots| && o !in q
    requires Fifo(orders.slots, levels.slots[l], q)
    modifies orders`slots, levels`slots
    ensures |orders.slots| == |old(orders.slots)| && Relinked(old(orders.slots), orders.slots, Slots(q) + {o})
    ensures l < |levels.slots| && levels.slots == old(levels.slots)[l := levels.slots[l]]
    ensures Fifo(orders.slots, levels.slots[l], q + [o])
    ensures levels.slots[l].price == old(levels.slots[l].price)
    ensures levels.slots[l].aggregated == old(levels.slots[l].aggregated) + orders.slots[o].data.rem
  {
    var nodes, lv := orders.slots, levels.slots[l];
    nodes := nodes[o := nodes[o].(next := NIL, prev := lv.tail)];
    if lv.tail != NIL {
      nodes := nodes[lv.tail := nodes[lv.tail].(next := o)];
    } else {
      lv := lv.(head := o);
    }
    lv := lv.(tail := o, aggregated := lv.aggregated + nodes[o].data.rem);
    orders.slots := nodes;
    levels.slots := levels.slots[l := lv];
  }

  /** What bypassing the k-th order of the list does to every slot. */
  ghost predicate Bypassed(before: seq<Node>, after: seq<Node>, q: seq<nat>, k: nat)
    requires k < |q|
  {
    var p := if k == 0 then NIL else q[k - 1];
    var n := if k == |q| - 1 then NIL else q[k + 1];
    && |before| == |after|
    && forall i {:trigger after[i]} :: 0 <= i < |after| ==>
          after[i] == (if i == q[k] then before[i].(prev := NIL, next := NIL)
                       else if i == p then before[i].(next := n)
                       else if i == n then before[i].(prev := p)
                       else before[i])
  }

  /** Seen from the j-th order of the old list, only a neighbour of the k-th one is relinked. */
  lemma BypassedAt(before: seq<Node>, after: seq<Node>, lv: Level, q: seq<nat>, k: nat, j: nat)
    requires Fifo(before, lv, q) && k < |q| && Bypassed(before, after, q, k)
    requires j < |q| && j != k
    ensures q[j] < |after|
    ensures after[q[j]].prev ==
      (if j == 0 || (j == 1 && k == 0) then NIL else if j == k + 1 then q[j - 2] else q[j - 1])
    ensures after[q[j]].next ==
            (if j == |q| - 1 || (j == |q| - 2 && k == |q| - 1) then NIL else if j == k - 1 then q[j + 2] else q[j + 1])
  {
    var b := before[q[j]];
    assert b.prev == (if j == 0 then NIL else q[j - 1]) && b.next == (if j == |q| - 1 then NIL else q[j + 1]);
    assert q[j] != q[k] && (k > 0 && j != k - 1 ==> q[j] != q[k - 1]);
    assert k < |q| - 1 && j != k + 1 ==> q[j] != q[k + 1];
  }

  lemma BypassFifo(before: seq<Node>, after: seq<Node>, lv: Level, lv': Level, q: seq<nat>, k: nat, q': seq<nat>)
    requires Fifo(before, lv, q) && k < |q| && Bypassed(before, after, q, k)
    requires lv'.head == if k > 0 then lv.head else if |q| == 1 then NIL else q[1]
    requires lv'.tail == if k < |q| - 1 then lv.tail else if |q| == 1 then NIL else q[|q| - 2]
    requires |q'| == |q| - 1
    requires forall i {:trigger q'[i]} :: 0 <= i < |q'| ==> q'[i] == q[if i < k then i else i + 1]
    ensures Fifo(after, lv', q')
  {
    forall i | 0 <= i < |q'|
      ensures q'[i] < |after|
      ensures after[q'[i]].prev == (if i == 0 then NIL else q'[i - 1])
      ensures after[q'[i]].next == (if i == |q'| - 1 then NIL else q'[i + 1])
    {
      BypassedAt(before, after, lv, q, k, if i < k then i else i + 1);
    }
  }

  lemma BypassedRelinks(before: seq<Node>, after: seq<Node>, lv: Level, q: seq<nat>, k: nat)
    requires Fifo(before, lv, q) && k < |q| && Bypassed(before, after, q, k)
    ensures Relinked(before, after, Slots(q))
  {
    forall i | 0 <= i < |after| && i !in Slots(q) ensures after[i] == before[i] {
      assert q[k] in q && (k > 0 ==> q[k - 1] in q) && (k < |q| - 1 ==> q[k + 1] in q);
    }
  }

  /** The pool once o's neighbours are linked past it and its own links are cleared. */
  ghost function Bypass(nodes: seq<Node>, o: nat): seq<Node>
    requires o < |nodes| && -1 <= nodes[o].prev < |nodes| && -1 <= nodes[o].next < |nodes|
  {
    var (p, n) := (nodes[o].prev, nodes[o].next);
    var nodes1 := if p == NIL then nodes else nodes[p := nodes[p].(next := n)];
    var nodes2 := if n == NIL then nodes1 else nodes1[n := nodes1[n].(prev := p)];
    nodes2[o := nodes2[o].(next := NIL, prev := NIL)]
  }

  lemma BypassIs(nodes: seq<Node>, lv: Level, q: seq<nat>, k: nat)
    requires Fifo(nodes, lv, q) && k < |q|
    ensures q[k] < |nodes|
    ensures nodes[q[k]].prev == (if k == 0 then NIL else q[k - 1]) < |nodes|
    ensures nodes[q[k]].next == (if k == |q| - 1 then NIL else q[k + 1]) < |nodes|
    ensures Bypassed(nodes, Bypass(nodes, q[k]), q, k)
    ensures lv.head == q[0] && lv.tail == q[|q| - 1]
  {
    assert nodes[q[k]].prev == (if k == 0 then NIL else q[k - 1]);
    assert nodes[q[k]].next == (if k == |q| - 1 then NIL else q[k + 1]);
  }

  method FifoRemove(orders: Pool<Node>, levels: Pool<Level>, l: nat, ghost q: seq<nat>, ghost k: nat, o: nat)
    requires l < |levels.slots| && k < |q| && q[k] == o
    requires Fifo(orders.slots, levels.slots[l], q)
    modifies orders`slots, levels`slots
    ensures |orders.slots| == |old(orders.slots)| && Relinked(old(orders.slots), orders.slots, Slots(q))
    ensures l < |levels.slots| && levels.slots == old(levels.slots)[l := levels.slots[l]]
    ensures Fifo(orders.slots, levels.slots[l], q[..k] + q[k + 1..])
    ensures levels.slots[l].price == old(levels.slots[l].price)
    ensures levels.slots[l].aggregated == old(levels.slots[l].aggregated) - orders.slots[o].data.rem
  {
    ghost var before, lv0 := orders.slots, levels.slots[l];
    BypassIs(before, lv0, q, k);
    hide Fifo, Relinked, Bypassed;
    var nodes, lv := orders.slots, levels.slots[l];
    var node := nodes[o];
    if node.prev != NIL {
      nodes := nodes[node.prev := nodes[node.prev].(next := node.next)];
    } else {
      lv := lv.(head := node.next);
    }
    if node.next != NIL {
      nodes := nodes[node.next := nodes[node.next].(prev := node.prev)];
    } else {
      lv := lv.(tail := node.prev);
    }
    lv := lv.(aggregated := lv.aggregated - node.data.rem);
    nodes := nodes[o := nodes[o].(next := NIL, prev := NIL)];
    assert nodes == Bypass(before, o);
    BypassFifo(before, nodes, lv0, lv, q, k, q[..k] + q[k + 1..]);
    BypassedRelinks(before, nodes, lv0, q, k);
    orders.slots := nodes;
    levels.slots := levels.slots[l := lv];
  }

  predicate Empty(lv: Level) {
    lv.head == NIL
  }
}
