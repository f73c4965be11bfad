/**
 The whole book as values: two sides over shared pools and the index by order id, what makes them
 consistent, and how linking, unlinking and editing one order keeps them so.
 */
module BookStates {
  import opened CoreTypes
  import opened PriceTime
  import opened Pools
  import opened PriceLevels
  import opened BookSides

  datatype Whole = Whole(bids: SideView, asks: SideView, nodes: seq<Node>, levels: seq<Level>,
                         buyTree: map<int, nat>, sellTree: map<int, nat>, index: map<nat, nat>)
  {
    ghost function View(side: Side): SideView {
      if side.Buy? then bids else asks
    }

    ghost function Tree(side: Side): map<int, nat> {
      if side.Buy? then buyTree else sellTree
    }

    ghost function Part(side: Side): Store {
      Store(nodes, levels, Tree(side))
    }

    ghost function WithSide(side: Side, v: SideView, st: Store): Whole {
      if side.Buy? then this.(bids := v, nodes := st.nodes, levels := st.levels, buyTree := st.tree)
      else this.(asks := v, nodes := st.nodes, levels := st.levels, sellTree := st.tree)
    }

    /** Every queued slot is the one its own order id leads to. */
    ghost predicate QueuedIndexed(side: Side, p: int)
      requires p in View(side).queues
    {
      forall i :: 0 <= i < |View(side).queues[p]| ==>
        var s := View(side).queues[p][i];
        s < |nodes| && nodes[s].data.id in index && index[nodes[s].data.id] == s
    }

    /** An indexed id leads to a slot that carries it and queues at its own side and price. */
    ghost predicate IndexedQueued(id: nat)
      requires id in index
    {
      var s := index[id];
      s < |nodes| && nodes[s].data.id == id && s in Queue(View(nodes[s].data.side), nodes[s].data.price)
    }

    ghost predicate IndexOk() {
      && (forall side, p {:trigger QueuedIndexed(side, p)} :: p in View(side).queues ==> QueuedIndexed(side, p))
      && (forall id {:trigger IndexedQueued(id)} :: id in index ==> IndexedQueued(id))
    }

    ghost predicate Ok() {
      && bids.side == Buy && asks.side == Sell
      && SideOk(bids, Part(Buy)) && SideOk(asks, Part(Sell))
      && UniqueIds(bids.recs) && UniqueIds(asks.recs)
      && buyTree.Values !! sellTree.Values
      && IndexOk()
    }
  }

  lemma EmptyOk(w: Whole)
    requires w.bids == SideView(Buy, [], map[], map[]) && w.asks == SideView(Sell, [], map[], map[])
    requires w.buyTree == map[] && w.sellTree == map[] && w.index == map[]
    ensures w.Ok()
  {
  }

  lemma SidesOk(w: Whole, side: Side)
    requires w.Ok()
    ensures SideOk(w.View(side), w.Part(side)) && UniqueIds(w.View(side).recs) && w.View(side).side == side
  {
  }

  /** Every resting record is carried by an indexed slot. */
  lemma RestingIndexed(w: Whole, side: Side, i: nat)
    requires w.Ok() && i < |w.View(side).recs|
    ensures w.View(side).recs[i].id in w.index
    ensures var s := w.index[w.View(side).recs[i].id];
      s < |w.nodes| && w.nodes[s].data == w.View(side).recs[i]
  {
    SidesOk(w, side);
    var v, st := w.View(side), w.Part(side);
    var r := v.recs[i];
    AtPriceMember(v.recs, r.price, i);
    assert LevelAt(v, st, r.price);
    var k :| 0 <= k < |AtPrice(v.recs, r.price)| && AtPrice(v.recs, r.price)[k] == r;
    assert w.nodes[v.queues[r.price][k]].data == r;
    assert w.QueuedIndexed(side, r.price);
  }

  /** The slot an id leads to carries a record resting on the side the record names. */
  lemma IndexedRests(w: Whole, id: nat) returns (k: nat)
    requires w.Ok() && id in w.index && w.index[id] < |w.nodes|
    ensures var r := w.nodes[w.index[id]].data;
      && r.id == id && r in w.View(r.side).recs && r.price in w.Tree(r.side)
      && k < |Queue(w.View(r.side), r.price)| == |AtPrice(w.View(r.side).recs, r.price)|
      && Queue(w.View(r.side), r.price)[k] == w.index[id]
      && AtPrice(w.View(r.side).recs, r.price)[k] == r
  {
    assert w.IndexedQueued(id);
    var r := w.nodes[w.index[id]].data;
    SidesOk(w, r.side);
    var v := w.View(r.side);
    assert LevelAt(v, w.Part(r.side), r.price);
    k :| 0 <= k < |v.queues[r.price]| && v.queues[r.price][k] == w.index[id];
    AtPriceFrom(v.recs, r.price, AtPrice(v.recs, r.price)[k]);
  }

  /** Lists of different sides never share an order. */
  lemma SidesApart(w: Whole, p: int, p': int)
    requires w.Ok() && p in w.buyTree && p' in w.sellTree
    ensures Slots(w.bids.queues[p]) !! Slots(w.asks.queues[p'])
  {
    QueuedAt(w.bids, w.Part(Buy), p);
    QueuedAt(w.asks, w.Part(Sell), p');
  }

  /** Slots outside the index are in no list. */
  lemma UnindexedUnqueued(w: Whole, side: Side, p: int, s: nat)
    requires w.Ok() && s !in w.index.Values && p in w.View(side).queues
    ensures s !in w.View(side).queues[p]
  {
    assert w.QueuedIndexed(side, p);
  }

  // ----- linking

  ghost function Inserted(w: Whole, st': Store, o: nat, r: OrderRec): Whole {
    w.WithSide(r.side, Grown(w.View(r.side), o, r), st').(index := w.index[r.id := o])
  }

  lemma InsertedOk(w: Whole, st': Store, o: nat, r: OrderRec, l: nat)
    requires w.Ok() && o !in w.index.Values && r.id !in w.index
    requires LinkedIn(w.View(r.side), w.Part(r.side), st', o, r, l)
    requires l !in w.Tree(r.side.Opposite()).Values
    requires r.price !in w.Tree(r.side) ==> l !in w.Tree(r.side).Values
    requires forall i :: 0 <= i < |w.levels| && i != l ==> st'.levels[i] == w.levels[i]
    ensures Inserted(w, st', o, r).Ok()
  {
    hide SideOk, Fifo;
    var w' := Inserted(w, st', o, r);
    SidesOk(w, r.side);
    SidesOk(w, r.side.Opposite());
    forall p | p in w.View(r.side).queues ensures o !in w.View(r.side).queues[p] {
      UnindexedUnqueued(w, r.side, p, o);
    }
    GrownOk(w.View(r.side), w.Part(r.side), st', o, r, l);
    InsertedOther(w, st', o, r, l);
    InsertedUnique(w, o, r);
    InsertedIndex(w, st', o, r, l);
  }

  lemma InsertedOther(w: Whole, st': Store, o: nat, r: OrderRec, l: nat)
    requires w.Ok() && o !in w.index.Values
    requires LinkedIn(w.View(r.side), w.Part(r.side), st', o, r, l)
    requires l !in w.Tree(r.side.Opposite()).Values
    requires forall i :: 0 <= i < |w.levels| && i != l ==> st'.levels[i] == w.levels[i]
    ensures SideOk(w.View(r.side.Opposite()), Store(st'.nodes, st'.levels, w.Tree(r.side.Opposite())))
  {
    hide Fifo, RecsOk;
    var other := r.side.Opposite();
    var v := w.View(other);
    SidesOk(w, other);
    SidesOk(w, r.side);
    forall p | p in w.Tree(other) ensures SameAt(w.nodes, st'.nodes, Queue(v, p)) {
      assert LevelAt(v, w.Part(other), p);
      UnindexedUnqueued(w, other, p, o);
      if r.price in w.Tree(r.side) {
        if r.side.Buy? {
          SidesApart(w, r.price, p);
        } else {
          SidesApart(w, p, r.price);
        }
      }
      UntouchedSame(w.nodes, st'.nodes, Slots(Queue(w.View(r.side), r.price)) + {o}, w.levels[w.Tree(other)[p]],
                    v.queues[p]);
    }
    SideKept(v, w.Part(other), Store(st'.nodes, st'.levels, w.Tree(other)));
  }

  lemma InsertedUnique(w: Whole, o: nat, r: OrderRec)
    requires w.Ok() && r.id !in w.index
    ensures UniqueIds(Place(w.View(r.side).recs, r))
  {
    var s := w.View(r.side).recs;
    forall i | 0 <= i < |s| ensures s[i].id != r.id {
      RestingIndexed(w, r.side, i);
    }
    PlaceUnique(s, r);
  }

  lemma InsertedIndex(w: Whole, st': Store, o: nat, r: OrderRec, l: nat)
    requires w.Ok() && o !in w.index.Values && r.id !in w.index
    requires LinkedIn(w.View(r.side), w.Part(r.side), st', o, r, l)
    ensures Inserted(w, st', o, r).IndexOk()
  {
    hide SideOk, Fifo, RecsOk, LinkedIn, Whole.QueuedIndexed, Whole.IndexedQueued;
    var w' := Inserted(w, st', o, r);
    forall side, p | p in w'.View(side).queues ensures w'.QueuedIndexed(side, p) {
      InsertedQueued(w, st', o, r, l, side, p);
    }
    forall id | id in w'.index ensures w'.IndexedQueued(id) {
      InsertedIndexed(w, st', o, r, l, id);
    }
  }

  lemma InsertedQueued(w: Whole, st': Store, o: nat, r: OrderRec, l: nat, side: Side, p: int)
    requires w.Ok() && o !in w.index.Values && r.id !in w.index
    requires LinkedIn(w.View(r.side), w.Part(r.side), st', o, r, l)
    requires p in Inserted(w, st', o, r).View(side).queues
    ensures Inserted(w, st', o, r).QueuedIndexed(side, p)
  {
    hide SideOk, Fifo, RecsOk;
    assert p in w.View(side).queues ==> w.QueuedIndexed(side, p);
  }

  lemma InsertedIndexed(w: Whole, st': Store, o: nat, r: OrderRec, l: nat, id: nat)
    requires w.Ok() && o !in w.index.Values && r.id !in w.index
    requires LinkedIn(w.View(r.side), w.Part(r.side), st', o, r, l)
    requires id in Inserted(w, st', o, r).index
    ensures Inserted(w, st', o, r).IndexedQueued(id)
  {
    hide SideOk, Fifo, RecsOk;
    assert id in w.index ==> w.IndexedQueued(id);
  }

  // ----- unlinking

  /** The order behind id, the k-th at its price, leaves its list, its side and the index. */
  ghost function Deleted(w: Whole, st': Store, r: OrderRec, k: nat): Whole
    requires r.price in w.View(r.side).queues
    requires k < |w.View(r.side).queues[r.price]| == |AtPrice(w.View(r.side).recs, r.price)|
  {
    w.WithSide(r.side, Shrunk(w.View(r.side), r.price, k), st').(index := w.index - {r.id})
  }

  lemma DeletedOk(w: Whole, st': Store, r: OrderRec, k: nat)
    requires w.Ok() && UnlinkedFrom(w.View(r.side), w.Part(r.side), st', r.price, k)
    requires AtPrice(w.View(r.side).recs, r.price)[k] == r
    requires forall i :: 0 <= i < |w.levels| && i != w.Tree(r.side)[r.price] ==> st'.levels[i] == w.levels[i]
    ensures Deleted(w, st', r, k).Ok()
  {
    hide SideOk, Fifo;
    SidesOk(w, r.side);
    SidesOk(w, r.side.Opposite());
    ShrunkOk(w.View(r.side), w.Part(r.side), st', r.price, k);
    RemoveUnique(w.View(r.side).recs, r.id);
    DeletedOther(w, st', r, k);
    DeletedIndex(w, st', r, k);
  }

  /** The sides have no level in common. */
  lemma LevelsDisjoint(w: Whole, side: Side, p: int)
    requires w.Ok() && p in w.Tree(side)
    ensures forall p' :: p' in w.Tree(side.Opposite()) ==>
      w.Tree(side.Opposite())[p'] < |w.levels| && w.Tree(side.Opposite())[p'] != w.Tree(side)[p]
  {
    hide Whole.IndexOk;
    assert w.Tree(side)[p] in w.Tree(side).Values;
    var other := w.Tree(side.Opposite());
    assert forall p' :: p' in other ==> other[p'] in other.Values;
  }

  lemma DeletedSame(w: Whole, st': Store, r: OrderRec, k: nat, p: int)
    requires w.Ok() && UnlinkedFrom(w.View(r.side), w.Part(r.side), st', r.price, k) && p in w.Tree(r.side.Opposite())
    ensures SameAt(w.nodes, st'.nodes, Queue(w.View(r.side.Opposite()), p))
  {
    hide Fifo, RecsOk, Whole.IndexOk;
    var other := r.side.Opposite();
    var v := w.View(other);
    SidesOk(w, other);
    assert LevelAt(v, w.Part(other), p);
    if r.side.Buy? {
      SidesApart(w, r.price, p);
    } else {
      SidesApart(w, p, r.price);
    }
    UntouchedSame(w.nodes, st'.nodes, Slots(w.View(r.side).queues[r.price]), w.levels[w.Tree(other)[p]], v.queues[p]);
  }

  lemma DeletedOther(w: Whole, st': Store, r: OrderRec, k: nat)
    requires w.Ok() && UnlinkedFrom(w.View(r.side), w.Part(r.side), st', r.price, k)
    requires forall i :: 0 <= i < |w.levels| && i != w.Tree(r.side)[r.price] ==> st'.levels[i] == w.levels[i]
    ensures SideOk(w.View(r.side.Opposite()), Store(st'.nodes, st'.levels, w.Tree(r.side.Opposite())))
  {
    var other := r.side.Opposite();
    LevelsDisjoint(w, r.side, r.price);
    SidesOk(w, other);
    forall p | p in w.Tree(other) ensures SameAt(w.nodes, st'.nodes, Queue(w.View(other), p)) {
      DeletedSame(w, st', r, k, p);
    }
    hide Whole.Ok, SideOk, SameAt, Relinked, Fifo;
    SideKept(w.View(other), w.Part(other), Store(st'.nodes, st'.levels, w.Tree(other)));
  }

  lemma DeletedIndex(w: Whole, st': Store, r: OrderRec, k: nat)
    requires w.Ok() && UnlinkedFrom(w.View(r.side), w.Part(r.side), st', r.price, k)
    requires AtPrice(w.View(r.side).recs, r.price)[k] == r
    ensures Deleted(w, st', r, k).IndexOk()
  {
    forall side, p | p in Deleted(w, st', r, k).View(side).queues
      ensures Deleted(w, st', r, k).QueuedIndexed(side, p)
    {
      DeletedQueued(w, st', r, k, side, p);
    }
    forall id | id in w.index && id != r.id ensures Deleted(w, st', r, k).IndexedQueued(id) {
      DeletedIndexed(w, st', r, k, id);
    }
  }

  /** The slot that leaves is the one r's id leads to. */
  lemma LeavingSlot(w: Whole, r: OrderRec, k: nat)
    requires w.Ok() && r.price in w.Tree(r.side) && r.price in w.View(r.side).queues
    requires k < |w.View(r.side).queues[r.price]| == |AtPrice(w.View(r.side).recs, r.price)|
    requires AtPrice(w.View(r.side).recs, r.price)[k] == r
    ensures var q := w.View(r.side).queues[r.price];
      && q[k] < |w.nodes| && w.nodes[q[k]].data == r && r.id in w.index && w.index[r.id] == q[k]
      && (forall i :: 0 <= i < |q| && i != k ==> q[i] != q[k])
  {
    hide RecsOk;
    SidesOk(w, r.side);
    assert LevelAt(w.View(r.side), w.Part(r.side), r.price);
    assert w.QueuedIndexed(r.side, r.price);
  }

  lemma CutMembers(q: seq<nat>, k: nat)
    requires k < |q| && forall i :: 0 <= i < |q| && i != k ==> q[i] != q[k]
    ensures forall s :: s in q[..k] + q[k + 1..] ==> s in q && s != q[k]
    ensures forall s :: s in q && s != q[k] ==> s in q[..k] + q[k + 1..]
  {
    assert q == q[..k] + [q[k]] + q[k + 1..];
  }

  /** What is queued after a removal was queued before, and is not the slot that left. */
  lemma DeletedStays(w: Whole, st': Store, r: OrderRec, k: nat, side: Side, p: int)
    requires w.Ok() && UnlinkedFrom(w.View(r.side), w.Part(r.side), st', r.price, k)
    requires AtPrice(w.View(r.side).recs, r.price)[k] == r
    requires p in Deleted(w, st', r, k).View(side).queues
    ensures p in w.View(side).queues
    ensures forall s :: s in Deleted(w, st', r, k).View(side).queues[p] ==>
      s in w.View(side).queues[p] && s != w.View(r.side).queues[r.price][k]
  {
    hide RecsOk, Fifo, SideOk, Whole.IndexOk, UniqueIds;
    LeavingSlot(w, r, k);
    SidesOk(w, side);
    CutMembers(w.View(r.side).queues[r.price], k);
    KeysAgree(w, side);
    QueuedAt(w.View(side), w.Part(side), p);
    assert forall s :: s in w.View(side).queues[p] ==> s in Slots(w.View(side).queues[p]);
  }

  lemma DeletedQueued(w: Whole, st': Store, r: OrderRec, k: nat, side: Side, p: int)
    requires w.Ok() && UnlinkedFrom(w.View(r.side), w.Part(r.side), st', r.price, k)
    requires AtPrice(w.View(r.side).recs, r.price)[k] == r
    requires p in Deleted(w, st', r, k).View(side).queues
    ensures Deleted(w, st', r, k).QueuedIndexed(side, p)
  {
    hide RecsOk, Fifo, SideOk, Shrunk, UniqueIds;
    DeletedStays(w, st', r, k, side, p);
    LeavingSlot(w, r, k);
    assert w.QueuedIndexed(side, p);
    var q' := Deleted(w, st', r, k).View(side).queues[p];
    forall i | 0 <= i < |q'| ensures q'[i] in w.View(side).queues[p] {
      assert q'[i] in q';
    }
  }

  lemma KeysAgree(w: Whole, side: Side)
    requires w.Ok()
    ensures w.Tree(side).Keys == w.View(side).queues.Keys
  {
  }

  lemma DeletedIndexed(w: Whole, st': Store, r: OrderRec, k: nat, id: nat)
    requires w.Ok() && UnlinkedFrom(w.View(r.side), w.Part(r.side), st', r.price, k)
    requires AtPrice(w.View(r.side).recs, r.price)[k] == r
    requires id in w.index && id != r.id
    ensures Deleted(w, st', r, k).IndexedQueued(id)
  {
    hide RecsOk, Fifo, SideOk;
    LeavingSlot(w, r, k);
    CutMembers(w.View(r.side).queues[r.price], k);
    assert w.IndexedQueued(id);
  }

  // ----- editing in place

  ghost function Rewritten(w: Whole, st': Store, r: OrderRec, d: int): Whole {
    w.WithSide(r.side, Edited(w.View(r.side), r, d), st')
  }

  lemma RewrittenOk(w: Whole, st': Store, r: OrderRec, k: nat, d: int)
    requires w.Ok() && EditedAt(w.View(r.side), w.Part(r.side), st', r, k, d)
    requires forall i :: 0 <= i < |w.levels| && i != w.Tree(r.side)[r.price] ==> st'.levels[i] == w.levels[i]
    ensures Rewritten(w, st', r, d).Ok()
  {
    hide SideOk, Fifo;
    SidesOk(w, r.side);
    SidesOk(w, r.side.Opposite());
    EditedOk(w.View(r.side), w.Part(r.side), st', r, k, d);
    RewrittenOther(w, st', r, k, d);
    RewrittenIndex(w, st', r, k, d);
    ReplaceShape(w.View(r.side).recs, r);
  }

  lemma EditedSlot(w: Whole, st': Store, r: OrderRec, k: nat, d: int)
    requires w.Ok() && EditedAt(w.View(r.side), w.Part(r.side), st', r, k, d)
    ensures var o := w.View(r.side).queues[r.price][k];
      && o < |w.nodes| && r.id in w.index && w.index[r.id] == o
      && w.nodes[o].data.id == r.id && w.nodes[o].data.side == r.side && w.nodes[o].data.price == r.price
  {
    hide Fifo;
    SidesOk(w, r.side);
    QueuedAt(w.View(r.side), w.Part(r.side), r.price);
    assert LevelAt(w.View(r.side), w.Part(r.side), r.price);
    LeavingSlot(w, w.nodes[w.View(r.side).queues[r.price][k]].data, k);
  }

  lemma RewrittenSame(w: Whole, st': Store, r: OrderRec, k: nat, d: int, p: int)
    requires w.Ok() && EditedAt(w.View(r.side), w.Part(r.side), st', r, k, d) && p in w.Tree(r.side.Opposite())
    ensures SameAt(w.nodes, st'.nodes, Queue(w.View(r.side.Opposite()), p))
  {
    hide Fifo, RecsOk, Whole.IndexOk;
    var other := r.side.Opposite();
    var v := w.View(other);
    SidesOk(w, other);
    EditedSlot(w, st', r, k, d);
    assert LevelAt(v, w.Part(other), p);
    QueuedAt(v, w.Part(other), p);
    forall i | 0 <= i < |v.queues[p]| ensures v.queues[p][i] != w.View(r.side).queues[r.price][k] {
      assert v.queues[p][i] in Slots(v.queues[p]);
    }
  }

  lemma RewrittenOther(w: Whole, st': Store, r: OrderRec, k: nat, d: int)
    requires w.Ok() && EditedAt(w.View(r.side), w.Part(r.side), st', r, k, d)
    requires forall i :: 0 <= i < |w.levels| && i != w.Tree(r.side)[r.price] ==> st'.levels[i] == w.levels[i]
    ensures SideOk(w.View(r.side.Opposite()), Store(st'.nodes, st'.levels, w.Tree(r.side.Opposite())))
  {
    var other := r.side.Opposite();
    LevelsDisjoint(w, r.side, r.price);
    SidesOk(w, other);
    forall p | p in w.Tree(other) ensures SameAt(w.nodes, st'.nodes, Queue(w.View(other), p)) {
      RewrittenSame(w, st', r, k, d, p);
    }
    hide Whole.Ok, SideOk, SameAt, Fifo;
    SideKept(w.View(other), w.Part(other), Store(st'.nodes, st'.levels, w.Tree(other)));
  }

  lemma RewrittenIndex(w: Whole, st': Store, r: OrderRec, k: nat, d: int)
    requires w.Ok() && EditedAt(w.View(r.side), w.Part(r.side), st', r, k, d)
    ensures Rewritten(w, st', r, d).IndexOk()
  {
    hide Fifo, RecsOk, SideOk;
    EditedSlot(w, st', r, k, d);
    var w' := Rewritten(w, st', r, d);
    forall side, p | p in w'.View(side).queues ensures w'.QueuedIndexed(side, p) {
      assert w.QueuedIndexed(side, p);
    }
    forall id | id in w'.index ensures w'.IndexedQueued(id) {
      assert w.IndexedQueued(id);
    }
  }

  /** What happens to an unindexed slot and to levels outside both indexes is invisible. */
  lemma SparedOk(w: Whole, nodes': seq<Node>, levels': seq<Level>, o: nat)
    requires w.Ok() && o !in w.index.Values
    requires |nodes'| == |w.nodes| && forall i :: 0 <= i < |nodes'| && i != o ==> nodes'[i] == w.nodes[i]
    requires |levels'| == |w.levels|
    requires forall i :: 0 <= i < |levels'| && (i in w.buyTree.Values || i in w.sellTree.Values) ==>
      levels'[i] == w.levels[i]
    ensures w.(nodes := nodes', levels := levels').Ok()
  {
    hide Fifo, RecsOk, Sorted;
    var w' := w.(nodes := nodes', levels := levels');
    forall side ensures SideOk(w.View(side), w'.Part(side)) {
      SparedSide(w, nodes', levels', o, side);
    }
    assert SideOk(w.View(Buy), w'.Part(Buy)) && SideOk(w.View(Sell), w'.Part(Sell));
    hide SideOk;
    forall side, p | p in w'.View(side).queues ensures w'.QueuedIndexed(side, p) {
      assert w.QueuedIndexed(side, p);
    }
    forall id | id in w'.index ensures w'.IndexedQueued(id) {
      assert w.IndexedQueued(id);
    }
  }

  lemma SparedSide(w: Whole, nodes': seq<Node>, levels': seq<Level>, o: nat, side: Side)
    requires w.Ok() && o !in w.index.Values
    requires |nodes'| == |w.nodes| && forall i :: 0 <= i < |nodes'| && i != o ==> nodes'[i] == w.nodes[i]
    requires |levels'| == |w.levels|
    requires forall i :: 0 <= i < |levels'| && (i in w.buyTree.Values || i in w.sellTree.Values) ==>
      levels'[i] == w.levels[i]
    ensures SideOk(w.View(side), Store(nodes', levels', w.Tree(side)))
  {
    hide Fifo, RecsOk;
    SidesOk(w, side);
    forall p | p in w.Tree(side) ensures SameAt(w.nodes, nodes', Queue(w.View(side), p)) {
      assert LevelAt(w.View(side), w.Part(side), p);
      UnindexedUnqueued(w, side, p, o);
      assert w.QueuedIndexed(side, p);
    }
    assert forall p :: p in w.Tree(side) ==> w.Tree(side)[p] in w.Tree(side).Values;
    SideKept(w.View(side), w.Part(side), Store(nodes', levels', w.Tree(side)));
  }

  /** There are never more live levels than resting orders: each level's head is an order of its own. */
  lemma LevelsBounded(w: Whole)
    requires w.Ok()
    ensures |w.buyTree.Values + w.sellTree.Values| <= |w.index.Values|
  {
    hide Whole.Ok;
    var used := w.buyTree.Values + w.sellTree.Values;
    var head := map l | l in used && l < |w.levels| :: w.levels[l].head;
    forall l | l in used ensures HeadLeadsTo(w, l) {
      HeadOf(w, l);
    }
    Injection(used, head, w.index.Values);
  }

  /** The order at the level's head is indexed, and its side and price lead back to the level. */
  ghost predicate HeadLeadsTo(w: Whole, l: nat) {
    && l < |w.levels| && 0 <= w.levels[l].head < |w.nodes|
    && w.levels[l].head in w.index.Values
    && var r := w.nodes[w.levels[l].head].data;
       r.price in w.Tree(r.side) && w.Tree(r.side)[r.price] == l
  }

  lemma KeyFor(w: Whole, l: nat) returns (side: Side, p: int)
    requires l in w.buyTree.Values + w.sellTree.Values
    ensures p in w.Tree(side) && w.Tree(side)[p] == l
  {
    if l in w.buyTree.Values {
      side := Buy;
      p := KeyOf(w.buyTree, l);
    } else {
      side := Sell;
      p := KeyOf(w.sellTree, l);
    }
  }

  lemma HeadOf(w: Whole, l: nat)
    requires w.Ok() && l in w.buyTree.Values + w.sellTree.Values
    ensures HeadLeadsTo(w, l)
  {
    hide RecsOk;
    var side, p := KeyFor(w, l);
    SidesOk(w, side);
    assert LevelAt(w.View(side), w.Part(side), p);
    QueuedAt(w.View(side), w.Part(side), p);
    var h := w.View(side).queues[p][0];
    assert h in Slots(w.View(side).queues[p]);
    assert w.QueuedIndexed(side, p);
    assert w.index[w.nodes[h].data.id] == h;
  }

  lemma {:induction false} Injection(xs: set<nat>, f: map<nat, int>, ys: set<nat>)
    requires forall x :: x in xs ==> x in f && f[x] >= 0 && f[x] in ys
    requires forall x, x' :: x in xs && x' in xs && x != x' ==> f[x] != f[x']
    ensures |xs| <= |ys|
  {
    if xs != {} {
      var x :| x in xs;
      Injection(xs - {x}, f, ys - {f[x]});
    }
  }
}
