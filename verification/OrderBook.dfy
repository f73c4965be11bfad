/**
 The limit order book: per side an ordered price index over FIFO levels with a cached best level, one
 index by order id, and the two pools. The ghost views say what the book holds as plain sequences.
 */
module OrderBooks {
  import opened CoreTypes
  import opened PriceTime
  import opened Pools
  import opened PriceLevels
  import opened RadixTree
  import opened BookSides
  import opened BookStates

  ghost predicate OrdersOwned(free: set<nat>, index: map<nat, nat>, held: set<nat>, n: nat) {
    Covers(free + index.Values + held, n) && free !! index.Values !! held
  }

  ghost predicate LevelsOwned(free: set<nat>, buys: map<int, nat>, sells: map<int, nat>, levels: seq<Level>) {
    && Covers(free + buys.Values + sells.Values, |levels|)
    && free !! buys.Values !! sells.Values
    && (forall l :: l in free ==> l < |levels| && levels[l] == BLANK_LEVEL)
  }

  /** Free, resting and held orders partition their pool; so do free levels and the levels of each side. */
  ghost predicate Owned(w: Whole, orders: set<nat>, levels: set<nat>, held: set<nat>) {
    OrdersOwned(orders, w.index, held, |w.nodes|) && LevelsOwned(levels, w.buyTree, w.sellTree, w.levels)
  }

  lemma ValuesOf(m: map<int, nat>, k: int, x: nat)
    ensures k !in m ==> m[k := x].Values == m.Values + {x}
    ensures k in m && m[k] == x ==> m[k := x] == m
  {
    if k !in m {
      assert forall j :: j in m ==> m[k := x][j] == m[j];
      assert m[k := x][k] == x;
      forall y | y in m.Values ensures y in m[k := x].Values {
        var j := KeyOf(m, y);
        assert m[k := x][j] == y;
      }
      forall y | y in m[k := x].Values ensures y in m.Values + {x} {
        var j := KeyOf(m[k := x], y);
      }
    }
  }

  lemma InsertOwned(free: set<nat>, index: map<nat, nat>, held: set<nat>, n: nat, id: nat, o: nat)
    requires OrdersOwned(free, index, held, n) && o in held && id !in index
    ensures OrdersOwned(free, index[id := o], held - {o}, n)
  {
    ValuesOf(index, id, o);
    assert free + index[id := o].Values + (held - {o}) == free + index.Values + held;
  }

  lemma OwnedEitherWay(free: set<nat>, a: map<int, nat>, b: map<int, nat>, levels: seq<Level>)
    ensures LevelsOwned(free, a, b, levels) <==> LevelsOwned(free, b, a, levels)
  {
    assert free + a.Values + b.Values == free + b.Values + a.Values;
  }

  /** A level at hand for one side is not in use by the other, nor elsewhere on its own. */
  lemma LevelUnshared(free: set<nat>, tree: map<int, nat>, other: map<int, nat>, levels: seq<Level>, p: int, l: nat)
    requires LevelsOwned(free, tree, other, levels)
    requires if p in tree then tree[p] == l else l in free
    ensures l !in other.Values && (p !in tree ==> l !in tree.Values)
  {
    if p in tree {
      assert l in tree.Values;
    }
  }

  lemma MadeOwned(free: set<nat>, tree: map<int, nat>, other: map<int, nat>, levels: seq<Level>,
                  levels': seq<Level>, p: int, l: nat)
    requires LevelsOwned(free, tree, other, levels) && |levels'| == |levels|
    requires if p in tree then tree[p] == l else l in free
    requires forall i :: 0 <= i < |levels| && i != l ==> levels'[i] == levels[i]
    ensures LevelsOwned(if p in tree then free else free - {l}, tree[p := l], other, levels')
  {
    ValuesOf(tree, p, l);
    if p in tree {
      assert l in tree.Values;
    } else {
      assert free - {l} + (tree.Values + {l}) + other.Values == free + tree.Values + other.Values;
    }
  }

  /** A key whose value no other key shares takes its value with it. */
  lemma ValuesWithout(m: map<int, nat>, k: int)
    requires k in m && forall j :: j in m && j != k ==> m[j] != m[k]
    ensures (m - {k}).Values == m.Values - {m[k]}
  {
    forall y | y in (m - {k}).Values ensures y in m.Values - {m[k]} {
      var j := KeyOf(m - {k}, y);
      assert m[j] == y;
    }
    forall y | y in m.Values - {m[k]} ensures y in (m - {k}).Values {
      var j := KeyOf(m, y);
      assert (m - {k})[j] == y;
    }
  }

  lemma LeaveOwned(free: set<nat>, index: map<nat, nat>, held: set<nat>, n: nat, id: nat)
    requires OrdersOwned(free, index, held, n) && id in index
    requires forall j :: j in index && j != id ==> index[j] != index[id]
    ensures OrdersOwned(free, index - {id}, held + {index[id]}, n)
  {
    ValuesWithout(index, id);
    assert index[id] in index.Values;
    assert free + (index - {id}).Values + (held + {index[id]}) == free + index.Values + held;
  }

  lemma DroppedOwned(free: set<nat>, tree: map<int, nat>, other: map<int, nat>, levels: seq<Level>,
                     levels': seq<Level>, p: int, gone: bool)
    requires LevelsOwned(free, tree, other, levels) && |levels'| == |levels| && p in tree
    requires forall j :: j in tree && j != p ==> tree[j] != tree[p]
    requires gone ==> tree[p] < |levels'| && levels'[tree[p]] == BLANK_LEVEL
    requires forall i :: 0 <= i < |levels| && i != tree[p] ==> levels'[i] == levels[i]
    ensures !gone ==> LevelsOwned(free, tree, other, levels')
    ensures gone ==> LevelsOwned(free + {tree[p]}, tree - {p}, other, levels')
  {
    ValuesWithout(tree, p);
    assert tree[p] in tree.Values;
    assert free + {tree[p]} + (tree - {p}).Values + other.Values == free + tree.Values + other.Values;
  }

  lemma UnlinkedFacts(v: SideView, st: Store, st': Store, p: int, k: nat)
    requires UnlinkedFrom(v, st, st', p, k)
    ensures SameData(st.nodes, st'.nodes)
    ensures st'.tree == if |v.queues[p]| == 1 then st.tree - {p} else st.tree
  {
  }

  lemma LinkedFacts(v: SideView, st: Store, st': Store, o: nat, r: OrderRec, l: nat)
    requires LinkedIn(v, st, st', o, r, l)
    ensures SameData(st.nodes, st'.nodes) && st'.tree == st.tree[r.price := l]
  {
  }

  lemma EditedBest(v: SideView, r: OrderRec, d: int, tree: map<int, nat>)
    requires forall i :: 0 <= i < |v.recs| && v.recs[i].id == r.id ==> v.recs[i].price == r.price
    ensures BestOf(Edited(v, r, d), tree) == BestOf(v, tree)
  {
    ReplaceShape(v.recs, r);
  }

  /** An edit in place disturbs neither ownership nor which levels are best. */
  lemma EditKept(w: Whole, free: set<nat>, st': Store, r: OrderRec, k: nat, d: int,
                 bestBid: int, bestAsk: int)
    requires w.Ok() && LevelsOwned(free, w.buyTree, w.sellTree, w.levels)
    requires EditedAt(w.View(r.side), w.Part(r.side), st', r, k, d)
    requires forall i :: 0 <= i < |w.levels| && i != w.Tree(r.side)[r.price] ==> st'.levels[i] == w.levels[i]
    requires bestBid == BestOf(w.bids, w.buyTree) && bestAsk == BestOf(w.asks, w.sellTree)
    ensures Rewritten(w, st', r, d).Ok()
    ensures LevelsOwned(free, w.buyTree, w.sellTree, st'.levels)
    ensures bestBid == BestOf(Rewritten(w, st', r, d).bids, w.buyTree)
    ensures bestAsk == BestOf(Rewritten(w, st', r, d).asks, w.sellTree)
  {
    hide SideOk, Whole.IndexOk;
    RewrittenOk(w, st', r, k, d);
    SidesOk(w, r.side);
    EditTarget(w.View(r.side), r, k);
    EditedBest(w.View(r.side), r, d, w.Tree(r.side));
    assert w.Tree(r.side)[r.price] in w.Tree(r.side).Values;
  }

  lemma HeldUnindexed(held: set<nat>, index: map<nat, nat>, free: set<nat>, n: nat, o: nat)
    requires OrdersOwned(free, index, held, n) && o in held
    ensures o !in index.Values
  {
  }

  lemma EditsInPlace(w: Whole, nodes': seq<Node>, r: OrderRec, k: nat, d: int, o: nat)
    requires w.Ok() && r.id in w.index && w.index[r.id] == o < |w.nodes| && r.price in w.Tree(r.side)
    requires w.nodes[o].data.id == r.id && w.nodes[o].data.side == r.side && w.nodes[o].data.price == r.price
    requires k < |Queue(w.View(r.side), r.price)| == |AtPrice(w.View(r.side).recs, r.price)|
    requires Queue(w.View(r.side), r.price)[k] == o && AtPrice(w.View(r.side).recs, r.price)[k] == w.nodes[o].data
    requires nodes' == w.nodes[o := w.nodes[o].(data := r)] && d == w.nodes[o].data.rem - r.rem
    ensures EditedAt(w.View(r.side), w.Part(r.side), Store(nodes', w.levels, w.Tree(r.side)), r, k, d)
  {
    hide SideOk, Fifo;
    SidesOk(w, r.side);
    KeysAgree(w, r.side);
    LevelSlots(w, r.side, r.price);
    Edits(w.View(r.side), w.Part(r.side), Store(nodes', w.levels, w.Tree(r.side)), r, k, 0, d);
  }

  lemma LevelSlots(w: Whole, side: Side, p: int)
    requires w.Ok() && p in w.Tree(side)
    ensures forall p' :: p' in w.Tree(side) ==>
      w.Tree(side)[p'] < |w.levels| && (p' != p ==> w.Tree(side)[p'] != w.Tree(side)[p])
  {
    SidesOk(w, side);
    forall p' | p' in w.Tree(side) && p' != p ensures w.Tree(side)[p'] != w.Tree(side)[p] {
      LevelsApart(w.View(side), w.Part(side), p, p');
    }
  }

  lemma IndexSize(w: Whole)
    requires w.Ok()
    ensures |w.index.Values| == |w.index.Keys|
  {
    forall id | id in w.index
      ensures w.index[id] in w.index.Values && w.index[id] < |w.nodes| && w.nodes[w.index[id]].data.id == id
    {
      assert w.IndexedQueued(id);
    }
    Injection(w.index.Keys, w.index, w.index.Values);
    var ids := map s | s in w.index.Values :: if s < |w.nodes| then w.nodes[s].data.id else 0;
    forall s | s in w.index.Values ensures ids[s] in w.index.Keys && w.index[ids[s]] == s {
      var id := KeyOf(w.index, s);
    }
    Injection(w.index.Values, ids, w.index.Keys);
  }

  lemma IdCount(index: map<nat, nat>, all: seq<OrderRec>)
    requires UniqueIds(all) && forall id :: id in index <==> HasId(all, id)
    ensures |index.Keys| == |all|
  {
    var ids := seq(|all|, i requires 0 <= i < |all| => all[i].id);
    DistinctCount(ids);
    forall id ensures id in index.Keys <==> id in set id | id in ids {
      if id in index {
        var i :| 0 <= i < |all| && all[i].id == id;
        assert ids[i] == id;
      }
    }
    assert index.Keys == set id | id in ids;
  }

  lemma FreeCount(free: set<nat>, index: map<nat, nat>, n: nat, held: set<nat>)
    requires OrdersOwned(free, index, held, n) && held == {} && |index.Values| == |index.Keys|
    ensures free == {} <==> |index.Keys| >= n
  {
    CoversCount(free + index.Values + held, n);
    assert free + index.Values + held == free + index.Values;
  }

  /** Distinct indexed ids lead to distinct slots. */
  lemma IndexInjective(w: Whole, id: nat)
    requires w.Ok() && id in w.index
    ensures forall j :: j in w.index && j != id ==> w.index[j] != w.index[id]
  {
    assert w.IndexedQueued(id);
    forall j | j in w.index && j != id ensures w.index[j] != w.index[id] {
      assert w.IndexedQueued(j);
    }
  }

  /** Where an order's slot and, if emptied, its level go when it leaves the book. */
  lemma Departed(w: Whole, free: set<nat>, st': Store, r: OrderRec, k: nat)
    requires w.Ok() && LevelsOwned(free, w.buyTree, w.sellTree, w.levels)
    requires UnlinkedFrom(w.View(r.side), w.Part(r.side), st', r.price, k) && r.price in w.Tree(r.side)
    requires |w.View(r.side).queues[r.price]| == 1 ==> st'.levels[w.Tree(r.side)[r.price]] == BLANK_LEVEL
    requires forall i :: 0 <= i < |w.levels| && i != w.Tree(r.side)[r.price] ==> st'.levels[i] == w.levels[i]
    ensures var gone := |w.View(r.side).queues[r.price]| == 1;
      LevelsOwned(free + (if gone then {w.Tree(r.side)[r.price]} else {}),
                  if r.side.Buy? then st'.tree else w.buyTree, if r.side.Buy? then w.sellTree else st'.tree, st'.levels)
  {
    hide Fifo, Relinked, RecsOk;
    var tree, other := w.Tree(r.side), w.Tree(r.side.Opposite());
    var gone := |w.View(r.side).queues[r.price]| == 1;
    OwnedEitherWay(free, tree, other, w.levels);
    SidesOk(w, r.side);
    forall j | j in tree && j != r.price ensures tree[j] != tree[r.price] {
      LevelsApart(w.View(r.side), w.Part(r.side), j, r.price);
    }
    DroppedOwned(free, tree, other, w.levels, st'.levels, r.price, gone);
    OwnedEitherWay(if gone then free + {tree[r.price]} else free, st'.tree, other, st'.levels);
    assert free + {} == free;
  }

  /** A held order linked in leaves everything owned as before, but for itself and a level made for it. */
  lemma JoinKept(w: Whole, st': Store, o: nat, r: OrderRec, l: nat,
                 orders: set<nat>, free: set<nat>, free': set<nat>, held: set<nat>)
    requires w.Ok() && Owned(w, orders, free, held) && o in held && r.id !in w.index
    requires LinkedIn(w.View(r.side), w.Part(r.side), st', o, r, l) && |st'.nodes| == |w.nodes|
    requires if r.price in w.Tree(r.side) then free' == free else l in free && free' == free - {l}
    requires forall i :: 0 <= i < |w.levels| && i != l ==> st'.levels[i] == w.levels[i]
    ensures Inserted(w, st', o, r).Ok() && Owned(Inserted(w, st', o, r), orders, free', held - {o})
  {
    hide Whole.Ok, Fifo, Relinked;
    var tree, other := w.Tree(r.side), w.Tree(r.side.Opposite());
    assert |st'.levels| == |w.levels| && st'.tree == tree[r.price := l] && (r.price in tree ==> tree[r.price] == l);
    HeldUnindexed(held, w.index, orders, |w.nodes|, o);
    OwnedEitherWay(free, tree, other, w.levels);
    hide OrdersOwned, LevelsOwned, LinkedIn;
    LevelUnshared(free, tree, other, w.levels, r.price, l);
    InsertedOk(w, st', o, r, l);
    InsertOwned(orders, w.index, held, |w.nodes|, r.id, o);
    MadeOwned(free, tree, other, w.levels, st'.levels, r.price, l);
    OwnedEitherWay(free', st'.tree, other, st'.levels);
  }

  /** And an order unlinked, but for its slot and a level emptied by it. */
  lemma LeaveKept(w: Whole, st': Store, r: OrderRec, k: nat, orders: set<nat>, free: set<nat>, held: set<nat>)
    requires w.Ok() && Owned(w, orders, free, held) && r.id in w.index && |st'.nodes| == |w.nodes|
    requires UnlinkedFrom(w.View(r.side), w.Part(r.side), st', r.price, k) && r.price in w.Tree(r.side)
    requires AtPrice(w.View(r.side).recs, r.price)[k] == r
    requires |w.View(r.side).queues[r.price]| == 1 ==> st'.levels[w.Tree(r.side)[r.price]] == BLANK_LEVEL
    requires forall i :: 0 <= i < |w.levels| && i != w.Tree(r.side)[r.price] ==> st'.levels[i] == w.levels[i]
    ensures Deleted(w, st', r, k).Ok()
    ensures var gone := |w.View(r.side).queues[r.price]| == 1;
      Owned(Deleted(w, st', r, k), orders, free + (if gone then {w.Tree(r.side)[r.price]} else {}),
            held + {w.index[r.id]})
  {
    UnlinkedFacts(w.View(r.side), w.Part(r.side), st', r.price, k);
    hide Whole.Ok, OrdersOwned, LevelsOwned, UnlinkedFrom;
    DeletedOk(w, st', r, k);
    Departed(w, free, st', r, k);
    IndexInjective(w, r.id);
    LeaveOwned(orders, w.index, held, |w.nodes|, r.id);
  }

  class OrderBook {
    const orderPool: Pool<Node>
    const levelPool: Pool<Level>
    var orderIndex: map<nat, nat>
    const buyBook: AdaptiveRadixTree
    const sellBook: AdaptiveRadixTree
    var bestBid: int
    var bestAsk: int
    ghost var bids: SideView
    ghost var asks: SideView
    ghost var held: set<nat>  // slots handed out and not in the book

    ghost function Snapshot(): Whole
      reads this, orderPool, levelPool, buyBook, sellBook
    {
      Whole(bids, asks, orderPool.slots, levelPool.slots, buyBook.levels, sellBook.levels, orderIndex)
    }

    ghost function View(side: Side): SideView
      reads this
    {
      if side.Buy? then bids else asks
    }

    function Tree(side: Side): AdaptiveRadixTree {
      if side.Buy? then buyBook else sellBook
    }

    ghost predicate Parts()
      reads this, orderPool, orderPool.freeList, levelPool, levelPool.freeList, buyBook, sellBook
    {
      && orderPool.Valid() && levelPool.Valid() && buyBook.Valid() && sellBook.Valid()
      && buyBook != sellBook && orderPool.freeList != levelPool.freeList
      && orderPool.blank == BLANK_NODE && levelPool.blank == BLANK_LEVEL
      && |orderPool.slots| == orderPool.freeList.Length == MAX_ORDERS
      && |levelPool.slots| == levelPool.freeList.Length == MIN_REQ_PRICELEVELS
    }

    ghost predicate Partition()
      requires Parts()
      reads this, orderPool, orderPool.freeList, levelPool, levelPool.freeList, buyBook, sellBook
    {
      Owned(Snapshot(), orderPool.Free(), levelPool.Free(), held)
    }

    ghost predicate Valid()
      reads this, orderPool, orderPool.freeList, levelPool, levelPool.freeList, buyBook, sellBook
    {
      && Parts() && Partition() && Snapshot().Ok()
      && bestBid == BestOf(bids, buyBook.levels)
      && bestAsk == BestOf(asks, sellBook.levels)
    }

    constructor ()
      ensures Valid() && bids.recs == [] && asks.recs == [] && orderIndex == map[] && held == {}
      ensures bids.drift == map[] && asks.drift == map[]
      ensures fresh(orderPool) && fresh(orderPool.freeList) && fresh(levelPool) && fresh(levelPool.freeList)
      ensures fresh(buyBook) && fresh(sellBook)
    {
      orderPool := new Pool<Node>(MAX_ORDERS, BLANK_NODE);
      levelPool := new Pool<Level>(MIN_REQ_PRICELEVELS, BLANK_LEVEL);
      buyBook := new AdaptiveRadixTree();
      sellBook := new AdaptiveRadixTree();
      orderIndex, bestBid, bestAsk := map[], NIL, NIL;
      bids, asks := SideView(Buy, [], map[], map[]), SideView(Sell, [], map[], map[]);
      held := {};
      new;
      Opens();
    }

    /** An empty index over untouched pools is a consistent book. */
    lemma Opens()
      requires Parts() && Covers(orderPool.Free(), |orderPool.slots|) && Covers(levelPool.Free(), |levelPool.slots|)
      requires forall i :: 0 <= i < |levelPool.slots| ==> levelPool.slots[i] == BLANK_LEVEL
      requires buyBook.levels == map[] && sellBook.levels == map[] && orderIndex == map[] && held == {}
      requires bids == SideView(Buy, [], map[], map[]) && asks == SideView(Sell, [], map[], map[])
      requires bestBid == bestAsk == NIL
      ensures Valid()
    {
      hide Whole.Ok;
      EmptyOk(Snapshot());
      assert orderPool.Free() + orderIndex.Values + held == orderPool.Free();
      assert levelPool.Free() + buyBook.levels.Values + sellBook.levels.Values == levelPool.Free();
    }

    method GetOrCreatePriceLevel(side: Side, price: int) returns (level: int)
      requires Parts() && Partition() && 0 <= price < U64
      modifies levelPool`top, levelPool`slots, Tree(side)
      ensures Parts()
      ensures level == NIL <==> price !in old(Tree(side).levels) && old(levelPool.Free()) == {}
      ensures level == NIL ==> Tree(side).levels == old(Tree(side).levels)
      ensures level == NIL ==> levelPool.slots == old(levelPool.slots) && levelPool.Free() == old(levelPool.Free())
      ensures level != NIL ==>
        0 <= level < |levelPool.slots| && Tree(side).levels == old(Tree(side).levels)[price := level]
      ensures price in old(Tree(side).levels) ==> level == old(Tree(side).levels)[price]
      ensures price in old(Tree(side).levels) ==>
        levelPool.Free() == old(levelPool.Free()) && levelPool.slots == old(levelPool.slots)
      ensures price !in old(Tree(side).levels) && level != NIL ==>
        && level in old(levelPool.Free()) && levelPool.Free() == old(levelPool.Free()) - {level}
        && levelPool.slots == old(levelPool.slots)[level := BLANK_LEVEL.(price := price)]
    {
      level := Tree(side).Find(price);
      if level != NIL {
        assert level in Tree(side).levels.Values;
        return;
      }
      var slot := levelPool.Allocate();
      if slot.None? {
        return NIL;
      }
      level := slot.value;
      levelPool.slots := levelPool.slots[level := levelPool.slots[level].(price := price)];
      var ok := Tree(side).Insert(price, level);
      assert ok;
    }

    /** While an order is held, some level is spare: live levels are fewer than allocated orders. */
    lemma SpareLevel()
      requires Valid() && held != {}
      ensures levelPool.Free() != {}
    {
      LevelsBounded(Snapshot());
      CoversCount(levelPool.Free() + buyBook.levels.Values + sellBook.levels.Values, |levelPool.slots|);
      CoversCount(orderPool.Free() + orderIndex.Values + held, |orderPool.slots|);
    }

    ghost predicate LinkedAs(w: Whole, w': Whole, o: nat, r: OrderRec, level: nat) {
      && LinkedIn(w.View(r.side), w.Part(r.side), w'.Part(r.side), o, r, level)
      && |w'.nodes| == |w.nodes| && |w'.levels| == |w.levels|
      && forall i :: 0 <= i < |w.levels| && i != level ==> w'.levels[i] == w.levels[i]
    }

    lemma Unindexed(o: nat)
      requires Valid() && o in held
      ensures o !in orderIndex.Values
    {
    }

    /** What stands at a price before an unindexed order joins: its list, or no list at all. */
    lemma Tail(side: Side, p: int, o: nat)
      requires Valid() && o !in orderIndex.Values
      ensures o !in Queue(View(side), p) && View(side).side == side
      ensures p in Tree(side).levels <==> p in View(side).queues
      ensures forall p' :: p' in Tree(side).levels ==>
        Tree(side).levels[p'] < |levelPool.slots| && Tree(side).levels[p'] !in levelPool.Free()
      ensures forall p' :: p' in Tree(side).levels && p in Tree(side).levels && p' != p ==>
        Tree(side).levels[p'] != Tree(side).levels[p]
      ensures p in Tree(side).levels ==> levelPool.slots[Tree(side).levels[p]].price == p
      ensures p in Tree(side).levels ==>
        Fifo(orderPool.slots, levelPool.slots[Tree(side).levels[p]], View(side).queues[p])
    {
      SidesOk(Snapshot(), side);
      if p in Tree(side).levels {
        assert LevelAt(View(side), Snapshot().Part(side), p);
        UnindexedUnqueued(Snapshot(), side, p, o);
        forall p' | p' in Tree(side).levels && p' != p ensures Tree(side).levels[p'] != Tree(side).levels[p] {
          LevelsApart(View(side), Snapshot().Part(side), p, p');
        }
      }
      assert forall p' :: p' in Tree(side).levels ==> Tree(side).levels[p'] in Tree(side).levels.Values;
    }

    /** The level an order is to join, made if need be. */
    method Room(o: nat, r: OrderRec) returns (level: nat)
      requires Valid() && o in held && 0 <= r.price < U64
      modifies levelPool`top, levelPool`slots, Tree(r.side)
      ensures Parts()
      ensures Roomy(View(r.side), old(Snapshot().Part(r.side)), Snapshot().Part(r.side), o, r.price, level)
      ensures levelPool.Free() == old(levelPool.Free()) - (if r.price in old(Tree(r.side).levels) then {} else {level})
      ensures r.price !in old(Tree(r.side).levels) ==> level in old(levelPool.Free())
    {
      hide Whole.Ok, Fifo, SideOk, Partition;
      SpareLevel();
      Unindexed(o);
      Tail(r.side, r.price, o);
      EmptyFifo(orderPool.slots, r.price);
      var l := GetOrCreatePriceLevel(r.side, r.price);
      level := l;
    }

    /** Links the order behind the tail of its level. */
    method Attach(o: nat, r: OrderRec) returns (level: nat)
      requires Valid() && o in held && o < |orderPool.slots| && orderPool.slots[o].data == r && 0 <= r.price < U64
      modifies levelPool`top, levelPool`slots, orderPool`slots, Tree(r.side)
      ensures Parts()
      ensures LinkedAs(old(Snapshot()), Snapshot(), o, r, level)
      ensures levelPool.Free() == old(levelPool.Free()) - (if r.price in old(Tree(r.side).levels) then {} else {level})
      ensures r.price !in old(Tree(r.side).levels) ==> level in old(levelPool.Free())
    {
      hide Whole.Ok, Fifo, SideOk, LinkedIn, Partition;
      ghost var st, q := Snapshot().Part(r.side), Queue(View(r.side), r.price);
      SideName(r.side);
      level := Room(o, r);
      ghost var st1 := Snapshot().Part(r.side);
      FifoPush(orderPool, levelPool, level, o, q);
      LinksIn(View(r.side), st, st1, Snapshot().Part(r.side), o, r, level);
    }

    /** Caches the level at the extreme price of the side's index. */
    method RefreshBest(side: Side)
      requires Parts() && Snapshot().Ok()
      modifies this`bestBid, this`bestAsk
      ensures side.Buy? ==> bestBid == BestOf(bids, buyBook.levels) && bestAsk == old(bestAsk)
      ensures side.Sell? ==> bestAsk == BestOf(asks, sellBook.levels) && bestBid == old(bestBid)
    {
      hide LevelOk, Whole.IndexOk;
      SidesOk(Snapshot(), side);
      var best := NIL;
      var empty := Tree(side).Empty();
      if !empty {
        var p;
        if side.Buy? {
          p := buyBook.MaxPrice();
        } else {
          p := sellBook.MinPrice();
        }
        ExtremeIsFront(View(side), Snapshot().Part(side), p);
        KeysBounded(side, p);
        best := Tree(side).Find(p);
      }
      if side.Buy? {
        bestBid := best;
      } else {
        bestAsk := best;
      }
    }

    lemma KeysBounded(side: Side, p: int)
      requires Snapshot().Ok() && p in Tree(side).levels
      ensures 0 <= p < U64
    {
      SidesOk(Snapshot(), side);
      assert LevelAt(View(side), Snapshot().Part(side), p);
    }

    ghost method SetView(side: Side, v: SideView)
      modifies this`bids, this`asks
      ensures bids == (if side.Buy? then v else old(bids)) && asks == (if side.Buy? then old(asks) else v)
    {
      if side.Buy? {
        bids := v;
      } else {
        asks := v;
      }
    }

    /** Everything an insertion does but refresh the best level. */
    method Join(o: nat, r: OrderRec) returns (level: nat)
      requires Valid() && o in held && o < |orderPool.slots|
      requires orderPool.slots[o].data == r && r.id !in orderIndex && 0 <= r.price < U64
      modifies this`orderIndex, this`bids, this`asks, this`held, levelPool`top, levelPool`slots, orderPool`slots,
               Tree(r.side)
      ensures Parts() && held == old(held) - {o}
      ensures Snapshot() == Inserted(old(Snapshot()), Snapshot().Part(r.side), o, r)
      ensures LinkedAs(old(Snapshot()), Snapshot(), o, r, level)
      ensures levelPool.Free() == old(levelPool.Free()) - (if r.price in old(Tree(r.side).levels) then {} else {level})
      ensures r.price !in old(Tree(r.side).levels) ==> level in old(levelPool.Free())
    {
      hide Whole.Ok, SideOk, Fifo, Owned, LinkedIn;
      level := Attach(o, r);
      orderIndex := orderIndex[r.id := o];
      SetView(r.side, Grown(View(r.side), o, r));
      held := held - {o};
    }

    twostate lemma UnindexedHeld(o: nat)
      requires old(Valid()) && o in old(held)
      ensures o !in old(orderIndex).Values
    {
    }

    method InsertOrder(o: nat)
      requires Valid() && o in held && o < |orderPool.slots|
      requires orderPool.slots[o].data.id !in orderIndex && 0 <= orderPool.slots[o].data.price < U64
      modifies this, levelPool`top, levelPool`slots, orderPool`slots, Tree(orderPool.slots[o].data.side)
      ensures Valid()
      ensures var r := old(orderPool.slots)[o].data;
        && View(r.side) == Grown(old(View(r.side)), o, r)
        && View(r.side.Opposite()) == old(View(r.side.Opposite()))
        && orderIndex == old(orderIndex)[r.id := o] && held == old(held) - {o}
      ensures |orderPool.slots| == old(|orderPool.slots|)
      ensures forall i :: 0 <= i < |orderPool.slots| ==> orderPool.slots[i].data == old(orderPool.slots)[i].data
    {
      hide Whole.Ok, Owned, LinkedIn;
      var r := orderPool.slots[o].data;
      ghost var w, free := Snapshot(), levelPool.Free();
      var level := Join(o, r);
      ghost var st' := Snapshot().Part(r.side);
      LinkedFacts(w.View(r.side), w.Part(r.side), st', o, r, level);
      JoinKept(w, st', o, r, level, orderPool.Free(), free, levelPool.Free(), old(held));
      RefreshBest(r.side);
    }

    method RemovePriceLevelIfEmpty(side: Side, price: int, ghost l: nat)
      requires Parts() && 0 <= price < U64 && price in Tree(side).levels && Tree(side).levels[price] == l
      requires l < |levelPool.slots| && l !in levelPool.Free() && levelPool.slots[l].price == price
      modifies levelPool, levelPool.freeList, Tree(side)
      ensures Parts()
      ensures Empty(old(levelPool.slots)[l]) ==>
        && Tree(side).levels == old(Tree(side).levels) - {price}
        && levelPool.Free() == old(levelPool.Free()) + {l}
        && levelPool.slots == old(levelPool.slots)[l := BLANK_LEVEL]
      ensures !Empty(old(levelPool.slots)[l]) ==>
        && Tree(side).levels == old(Tree(side).levels)
        && levelPool.Free() == old(levelPool.Free()) && levelPool.slots == old(levelPool.slots)
    {
      var level := Tree(side).Find(price);
      if !Empty(levelPool.slots[level]) {
        return;
      }
      var _ := Tree(side).Erase(levelPool.slots[level].price);
      var ok := levelPool.Deallocate(level);
      assert ok;
    }

    lemma Present(side: Side, p: int)
      requires Valid() && p in Tree(side).levels
      ensures p in View(side).queues && 0 <= p < U64
      ensures var l := Tree(side).levels[p];
        && l < |levelPool.slots| && l !in levelPool.Free() && levelPool.slots[l].price == p
        && Fifo(orderPool.slots, levelPool.slots[l], View(side).queues[p])
        && Carries(orderPool.slots, View(side).queues[p], AtPrice(View(side).recs, p))
      ensures forall p' :: p' in Tree(side).levels && p' != p ==>
        Tree(side).levels[p'] < |levelPool.slots| && Tree(side).levels[p'] != Tree(side).levels[p]
    {
      SidesOk(Snapshot(), side);
      assert LevelAt(View(side), Snapshot().Part(side), p);
      assert Tree(side).levels[p] in Tree(side).levels.Values;
      forall p' | p' in Tree(side).levels && p' != p ensures Tree(side).levels[p'] != Tree(side).levels[p] {
        LevelsApart(View(side), Snapshot().Part(side), p, p');
      }
    }

    /** Unlinks the k-th order of its level, which may be left empty. */
    method Unthread(level: nat, o: nat, r: OrderRec, ghost k: nat)
      requires Parts() && o < |orderPool.slots| && Hangs(Snapshot(), level, o, r, k)
      modifies orderPool`slots, levelPool`slots
      ensures Parts()
      ensures |orderPool.slots| == |old(orderPool.slots)| && |levelPool.slots| == |old(levelPool.slots)|
      ensures Unthreaded(View(r.side), old(Snapshot().Part(r.side)), orderPool.slots, levelPool.slots, r.price, k)
    {
      hide Fifo, Relinked, SameData, Unthreaded, Carries, AtPrice;
      ghost var st, q := Snapshot().Part(r.side), View(r.side).queues[r.price];
      FifoRemove(orderPool, levelPool, level, q, k, o);
      Unthreads(View(r.side), st, orderPool.slots, levelPool.slots, r.price, k, o);
    }

    /** Unlinks the k-th order at its price, and drops the level if that was its last. */
    method Detach(o: nat, r: OrderRec, ghost k: nat)
      requires Valid() && o < |orderPool.slots| && orderPool.slots[o].data == r && r.price in Tree(r.side).levels
      requires r.price in View(r.side).queues && k < |View(r.side).queues[r.price]|
      requires View(r.side).queues[r.price][k] == o
      modifies orderPool`slots, levelPool, levelPool.freeList, Tree(r.side)
      ensures Parts()
      ensures UnlinkedAs(old(Snapshot()), Snapshot(), r, k)
      ensures levelPool.Free() == old(levelPool.Free()) +
                (if |View(r.side).queues[r.price]| == 1 then {old(Tree(r.side).levels)[r.price]} else {})
    {
      hide Whole.Ok, Partition, UnlinkedFrom, Unthreaded, Fifo, Carries, AtPrice;
      Present(r.side, r.price);
      ghost var st := Snapshot().Part(r.side);
      var level := Tree(r.side).Find(r.price);
      Unthread(level, o, r, k);
      UnthreadedLevel(View(r.side), st, orderPool.slots, levelPool.slots, r.price, k);
      ghost var levels1 := levelPool.slots;
      RemovePriceLevelIfEmpty(r.side, r.price, level);
      UnlinksFrom(View(r.side), st, Snapshot().Part(r.side), levels1, r.price, k);
    }

    /** The order hangs at the k-th place of the level of its price. */
    ghost predicate Hangs(w: Whole, level: nat, o: nat, r: OrderRec, k: nat) {
      var v, tree, p := w.View(r.side), w.Tree(r.side), r.price;
      && p in tree && tree[p] == level < |w.levels| && w.levels[level].price == p
      && p in v.queues && k < |v.queues[p]| && v.queues[p][k] == o
      && Fifo(w.nodes, w.levels[level], v.queues[p]) && Carries(w.nodes, v.queues[p], AtPrice(v.recs, p))
      && forall p' :: p' in tree && p' != p ==> tree[p'] < |w.levels| && tree[p'] != level
    }

    ghost predicate UnlinkedAs(w: Whole, w': Whole, r: OrderRec, k: nat)
    {
      && UnlinkedFrom(w.View(r.side), w.Part(r.side), w'.Part(r.side), r.price, k)
      && |w'.nodes| == |w.nodes| && |w'.levels| == |w.levels|
      && r.price in w.Tree(r.side)
      && (|w.View(r.side).queues[r.price]| == 1 ==> w'.levels[w.Tree(r.side)[r.price]] == BLANK_LEVEL)
      && forall i :: 0 <= i < |w.levels| && i != w.Tree(r.side)[r.price] ==> w'.levels[i] == w.levels[i]
    }

    /** Everything a removal does but refresh the best level and give the slot back. */
    method Leave(o: nat, r: OrderRec, ghost k: nat)
      requires Valid() && r.id in orderIndex && orderIndex[r.id] == o < |orderPool.slots|
      requires orderPool.slots[o].data == r && r.price in Tree(r.side).levels
      requires r.price in View(r.side).queues
      requires k < |View(r.side).queues[r.price]| == |AtPrice(View(r.side).recs, r.price)|
      requires View(r.side).queues[r.price][k] == o && AtPrice(View(r.side).recs, r.price)[k] == r
      modifies this`orderIndex, this`bids, this`asks, this`held, orderPool`slots, levelPool, levelPool.freeList,
               Tree(r.side)
      ensures Parts() && Partition() && Snapshot().Ok()
      ensures Snapshot() == Deleted(old(Snapshot()), Snapshot().Part(r.side), r, k)
      ensures held == old(held) + {o}
      ensures SameData(old(orderPool.slots), orderPool.slots)
    {
      hide Whole.Ok, SideOk, Fifo, Owned, SameData, UnlinkedFrom;
      ghost var w, free := Snapshot(), levelPool.Free();
      Detach(o, r, k);
      ghost var st' := Snapshot().Part(r.side);
      UnlinkedFacts(w.View(r.side), w.Part(r.side), st', r.price, k);
      LeaveKept(w, st', r, k, orderPool.Free(), free, held);
      orderIndex := orderIndex - {r.id};
      SetView(r.side, Shrunk(View(r.side), r.price, k));
      held := held + {o};
      assert Snapshot() == Deleted(w, st', r, k);
    }

    method RequestAllocationOfOrder() returns (r: Option<nat>)
      requires Valid()
      modifies orderPool`top, this`held
      ensures Valid() && orderIndex == old(orderIndex) && bids == old(bids) && asks == old(asks)
      ensures r.None? <==> old(orderPool.Free()) == {}
      ensures r.None? ==> held == old(held)
      ensures r.Some? ==> r.value !in old(held) && r.value < |orderPool.slots| && held == old(held) + {r.value}
    {
      hide Whole.Ok, LevelsOwned;
      r := orderPool.Allocate();
      if r.Some? {
        held := held + {r.value};
        assert orderPool.Free() + orderIndex.Values + held == old(orderPool.Free()) + orderIndex.Values + old(held);
      }
    }

    /** Writes a handed-out order as a whole; the book does not see it. */
    method AssignOrder(o: nat, r: OrderRec)
      requires Valid() && o in held && o < |orderPool.slots|
      modifies orderPool`slots
      ensures Valid()
      ensures orderPool.slots == old(orderPool.slots)[o := Node(r, NIL, NIL)]
    {
      hide Whole.Ok, OrdersOwned, LevelsOwned;
      UnindexedHeld(o);
      SparedOk(Snapshot(), orderPool.slots[o := Node(r, NIL, NIL)], levelPool.slots, o);
      orderPool.slots := orderPool.slots[o := Node(r, NIL, NIL)];
    }

    method RequestDeAllocationOfOrder(o: nat)
      requires Valid() && o in held && o < |orderPool.slots|
      modifies orderPool, orderPool.freeList, this`held
      ensures Valid()
      ensures held == old(held) - {o}
      ensures orderPool.slots == old(orderPool.slots)[o := BLANK_NODE]
    {
      hide Whole.Ok, LevelsOwned;
      UnindexedHeld(o);
      SparedOk(Snapshot(), orderPool.slots[o := BLANK_NODE], levelPool.slots, o);
      var ok := orderPool.Deallocate(o);
      assert ok;
      held := held - {o};
      assert orderPool.Free() + orderIndex.Values + held == old(orderPool.Free()) + orderIndex.Values + old(held);
    }

    /** Takes a resting order out of the book; its slot is still to be given back. */
    method TakeOut(o: nat, r: OrderRec)
      requires Valid() && o < |orderPool.slots| && orderPool.slots[o].data == r
      requires r.id in orderIndex && orderIndex[r.id] == o
      modifies this, orderPool`slots, levelPool, levelPool.freeList, Tree(r.side)
      ensures Valid()
      ensures View(r.side).recs == RemoveId(old(View(r.side).recs), r.id) && DriftKept(old(View(r.side)), View(r.side))
      ensures View(r.side.Opposite()) == old(View(r.side.Opposite()))
      ensures orderIndex == old(orderIndex) - {r.id} && held == old(held) + {o}
      ensures |orderPool.slots| == old(|orderPool.slots|)
      ensures forall i :: 0 <= i < |orderPool.slots| ==> orderPool.slots[i].data == old(orderPool.slots)[i].data
    {
      hide Whole.Ok, SideOk, Owned;
      ghost var k := IndexedRests(Snapshot(), r.id);
      KeysAgree(Snapshot(), r.side);
      Leave(o, r, k);
      RefreshBest(r.side);
    }

    method RemoveOrder(o: nat)
      requires Valid() && o < |orderPool.slots|
      requires orderPool.slots[o].data.id in orderIndex && orderIndex[orderPool.slots[o].data.id] == o
      modifies this, orderPool, orderPool.freeList, levelPool, levelPool.freeList, Tree(orderPool.slots[o].data.side)
      ensures Valid()
      ensures var r := old(orderPool.slots)[o].data;
        && View(r.side).recs == RemoveId(old(View(r.side).recs), r.id)
        && DriftKept(old(View(r.side)), View(r.side))
        && View(r.side.Opposite()) == old(View(r.side.Opposite()))
        && orderIndex == old(orderIndex) - {r.id} && held == old(held)
      ensures |orderPool.slots| == old(|orderPool.slots|)
      ensures forall i :: 0 <= i < |orderPool.slots| && i != o ==>
        orderPool.slots[i].data == old(orderPool.slots)[i].data
    {
      hide Valid;
      var r := orderPool.slots[o].data;
      NotHeld(o, r.id);
      TakeOut(o, r);
      RequestDeAllocationOfOrder(o);
    }

    lemma NotHeld(o: nat, id: nat)
      requires Valid() && id in orderIndex && orderIndex[id] == o
      ensures o !in held
    {
      assert o in orderIndex.Values;
    }

    method FindOrder(id: nat) returns (o: int)
      requires Valid()
      ensures o == NIL <==> id !in orderIndex
      ensures o != NIL ==> 0 <= o < |orderPool.slots| && o == orderIndex[id] && orderPool.slots[o].data.id == id
      ensures o != NIL ==> orderPool.slots[o].data in View(orderPool.slots[o].data.side).recs
    {
      if id !in orderIndex {
        return NIL;
      }
      o := orderIndex[id];
      assert Snapshot().IndexedQueued(id);
      ghost var _ := IndexedRests(Snapshot(), id);
    }

    /** The oldest order of the best level: the front of the side. */
    method GetOrderAtBestPrice(side: Side) returns (o: int)
      requires Valid()
      ensures o == NIL <==> View(side).recs == []
      ensures o != NIL ==> 0 <= o < |orderPool.slots| && orderPool.slots[o].data == View(side).recs[0]
      ensures o != NIL ==> orderPool.slots[o].data.id in orderIndex && orderIndex[orderPool.slots[o].data.id] == o
    {
      hide Whole.IndexOk, Partition;
      var level := if side.Buy? then bestBid else bestAsk;
      SidesOk(Snapshot(), side);
      o := if level != NIL then levelPool.slots[level].head else NIL;
      if View(side).recs != [] {
        Front(side);
      }
    }

    lemma Front(side: Side)
      requires Valid() && View(side).recs != []
      ensures var p := View(side).recs[0].price;
        && p in Tree(side).levels && Tree(side).levels[p] < |levelPool.slots|
        && var h := levelPool.slots[Tree(side).levels[p]].head;
           0 <= h < |orderPool.slots| && orderPool.slots[h].data == View(side).recs[0]
           && orderPool.slots[h].data.id in orderIndex && orderIndex[orderPool.slots[h].data.id] == h
    {
      hide Partition;
      SidesOk(Snapshot(), side);
      var p := View(side).recs[0].price;
      assert LevelAt(View(side), Snapshot().Part(side), p);
      HeadOfLevel(View(side).recs);
      assert Snapshot().QueuedIndexed(side, p);
      assert orderPool.slots[View(side).queues[p][0]].data == AtPrice(View(side).recs, p)[0];
    }

    method BestBidPrice() returns (p: int)
      requires Valid()
      ensures p == if bids.recs == [] then 0 else bids.recs[0].price
    {
      BestLevel(Buy);
      p := if bestBid != NIL then levelPool.slots[bestBid].price else 0;
    }

    method BestAskPrice() returns (p: int)
      requires Valid()
      ensures p == if asks.recs == [] then 0 else asks.recs[0].price
    {
      BestLevel(Sell);
      p := if bestAsk != NIL then levelPool.slots[bestAsk].price else 0;
    }

    lemma BestLevel(side: Side)
      requires Valid()
      ensures var best := if side.Buy? then bestBid else bestAsk;
        (best == NIL <==> View(side).recs == []) &&
        (best != NIL ==> 0 <= best < |levelPool.slots| && levelPool.slots[best].price == View(side).recs[0].price)
    {
      hide Whole.IndexOk, Partition;
      SidesOk(Snapshot(), side);
      if View(side).recs != [] {
        assert LevelAt(View(side), Snapshot().Part(side), View(side).recs[0].price);
      }
    }

    ghost predicate EditedAs(w: Whole, w': Whole, r: OrderRec, k: nat, d: int) {
      && EditedAt(w.View(r.side), w.Part(r.side), w'.Part(r.side), r, k, d)
      && |w'.levels| == |w.levels|
      && forall i :: 0 <= i < |w.levels| && i != w.Tree(r.side)[r.price] ==> w'.levels[i] == w.levels[i]
    }

    /** Writes a resting order's fields and its level's total. */
    method WriteInPlace(o: nat, r: OrderRec, gain: int, ghost k: nat, ghost d: int)
      requires Valid() && o < |orderPool.slots| && r.price in Tree(r.side).levels
      requires k < |Queue(View(r.side), r.price)| == |AtPrice(View(r.side).recs, r.price)|
      requires Queue(View(r.side), r.price)[k] == o && AtPrice(View(r.side).recs, r.price)[k].id == r.id
      requires d == gain - (r.rem - AtPrice(View(r.side).recs, r.price)[k].rem)
      modifies orderPool`slots, levelPool`slots
      ensures Parts() && |levelPool.slots| == |old(levelPool.slots)|
      ensures EditedAs(old(Snapshot()), Snapshot(), r, k, d)
      ensures orderPool.slots == old(orderPool.slots)[o := old(orderPool.slots)[o].(data := r)]
    {
      hide Whole.Ok, Partition, Fifo, EditedAt, AtPrice, Carries;
      Present(r.side, r.price);
      SideName(r.side);
      ghost var st := Snapshot().Part(r.side);
      var level := Tree(r.side).Find(r.price);
      var lv := levelPool.slots[level];
      orderPool.slots := orderPool.slots[o := orderPool.slots[o].(data := r)];
      levelPool.slots := levelPool.slots[level := lv.(aggregated := lv.aggregated + gain)];
      assert orderPool.Valid() && levelPool.Valid() && buyBook.Valid() && sellBook.Valid();
      Edits(View(r.side), st, Snapshot().Part(r.side), r, k, gain, d);
    }

    lemma SideName(side: Side)
      requires Valid()
      ensures View(side).side == side
    {
    }

    /** Overwrites a resting order's fields in place, moving its level's total by gain. */
    method Rewrite(o: nat, r: OrderRec, gain: int)
      requires Valid() && o < |orderPool.slots| && r.id in orderIndex && orderIndex[r.id] == o
      requires r.side == orderPool.slots[o].data.side && r.price == orderPool.slots[o].data.price
      modifies this`bids, this`asks, orderPool`slots, levelPool`slots
      ensures Valid()
      ensures View(r.side) == Edited(old(View(r.side)), r, gain - (r.rem - old(orderPool.slots)[o].data.rem))
      ensures View(r.side.Opposite()) == old(View(r.side.Opposite()))
      ensures orderPool.slots == old(orderPool.slots)[o := old(orderPool.slots)[o].(data := r)]
    {
      hide Whole.Ok, OrdersOwned, LevelsOwned, EditedAt, BestOf;
      ghost var w, free := Snapshot(), levelPool.Free();
      ghost var d := gain - (r.rem - orderPool.slots[o].data.rem);
      ghost var k := IndexedRests(w, r.id);
      WriteInPlace(o, r, gain, k, d);
      EditKept(w, free, Snapshot().Part(r.side), r, k, d, bestBid, bestAsk);
      SetView(r.side, Edited(View(r.side), r, d));
      assert Snapshot() == Rewritten(w, Snapshot().Part(r.side), r, d);
    }

    method ConsumeOrder(o: nat, qty: int)
      requires Valid() && o < |orderPool.slots|
      requires orderPool.slots[o].data.id in orderIndex && orderIndex[orderPool.slots[o].data.id] == o
      modifies this`bids, this`asks, orderPool`slots, levelPool`slots
      ensures Valid()
      ensures var r := old(orderPool.slots)[o].data; var r' := r.(rem := r.rem - qty);
        && View(r.side) == Edited(old(View(r.side)), r', 0)
        && View(r.side.Opposite()) == old(View(r.side.Opposite()))
        && orderPool.slots == old(orderPool.slots)[o := old(orderPool.slots)[o].(data := r')]
    {
      var r := orderPool.slots[o].data;
      Rewrite(o, r.(rem := r.rem - qty), -qty);
    }

    /** A write through an order's pointer: invisible while the order is held, an edit in place while it rests. */
    method StoreOrder(o: nat, r: OrderRec)
      requires Valid() && o < |orderPool.slots|
      requires o !in held ==> r.id in orderIndex && orderIndex[r.id] == o
      requires o !in held ==> r.side == orderPool.slots[o].data.side && r.price == orderPool.slots[o].data.price
      modifies this`bids, this`asks, orderPool`slots
      ensures Valid()
      ensures o in held ==> bids == old(bids) && asks == old(asks)
      ensures o !in held ==>
        && View(r.side) == Edited(old(View(r.side)), r, old(orderPool.slots)[o].data.rem - r.rem)
        && View(r.side.Opposite()) == old(View(r.side.Opposite()))
      ensures orderPool.slots == old(orderPool.slots)[o := old(orderPool.slots)[o].(data := r)]
    {
      hide Whole.Ok, OrdersOwned, LevelsOwned, EditedAt, BestOf;
      ghost var w, free := Snapshot(), levelPool.Free();
      ghost var d := orderPool.slots[o].data.rem - r.rem;
      orderPool.slots := orderPool.slots[o := orderPool.slots[o].(data := r)];
      if o in held {
        assert o !in orderIndex.Values by {
          HeldUnindexed(old(held), w.index, orderPool.Free(), |w.nodes|, o);
        }
        SparedOk(w, orderPool.slots, levelPool.slots, o);
      } else {
        ghost var k := IndexedRests(w, r.id);
        EditsInPlace(w, orderPool.slots, r, k, d, o);
        EditKept(w, free, Snapshot().Part(r.side), r, k, d, bestBid, bestAsk);
        SetView(r.side, Edited(View(r.side), r, d));
        assert Snapshot() == Rewritten(w, Store(orderPool.slots, w.levels, w.Tree(r.side)), r, d);
      }
    }

    /** Levels are there exactly for the prices at which orders rest. */
    lemma LivePrices(side: Side)
      requires Valid()
      ensures forall p :: p in View(side).drift <==>
        exists i :: 0 <= i < |View(side).recs| && View(side).recs[i].price == p
    {
      hide Partition;
      SidesOk(Snapshot(), side);
      forall p | p in View(side).drift
        ensures exists i :: 0 <= i < |View(side).recs| && View(side).recs[i].price == p
      {
        assert LevelAt(View(side), Snapshot().Part(side), p);
        var r := AtPrice(View(side).recs, p)[0];
        AtPriceFrom(View(side).recs, p, r);
        var i :| 0 <= i < |View(side).recs| && View(side).recs[i] == r;
      }
    }

    /** A level's kept total is the sum over its queue, plus the reductions made there in place. */
    lemma LevelTotal(side: Side, p: int)
      requires Valid() && p in Tree(side).levels
      ensures Tree(side).levels[p] < |levelPool.slots| && p in View(side).drift
      ensures levelPool.slots[Tree(side).levels[p]].aggregated ==
        Open(AtPrice(View(side).recs, p)) + View(side).drift[p]
    {
      SidesOk(Snapshot(), side);
      assert LevelAt(View(side), Snapshot().Part(side), p);
    }

    /** Every object whose fields the book may change. */
    ghost function Footprint(): set<object> {
      {this, orderPool, orderPool.freeList, levelPool, levelPool.freeList, buyBook, sellBook}
    }

    /** A resting order's id identifies it across both sides, and the index knows exactly these ids. */
    lemma Identities()
      requires Valid()
      ensures UniqueIds(bids.recs + asks.recs)
      ensures forall id :: id in orderIndex <==> HasId(bids.recs + asks.recs, id)
      ensures Sorted(Buy, bids.recs) && Sorted(Sell, asks.recs)
      ensures forall i :: 0 <= i < |bids.recs| ==> bids.recs[i].side == Buy && bids.recs[i].id in orderIndex
      ensures forall i :: 0 <= i < |asks.recs| ==> asks.recs[i].side == Sell && asks.recs[i].id in orderIndex
    {
      hide Valid;
      SideRecs(Buy);
      SideRecs(Sell);
      var all := bids.recs + asks.recs;
      forall i | 0 <= i < |all| ensures all[i].id in orderIndex && 0 <= orderIndex[all[i].id] < |orderPool.slots|
        && orderPool.slots[orderIndex[all[i].id]].data == all[i]
      {
        assert all[i] == if i < |bids.recs| then View(Buy).recs[i] else View(Sell).recs[i - |bids.recs|];
      }
      forall id | id in orderIndex ensures HasId(all, id) {
        IndexedHas(id);
      }
    }

    lemma SideRecs(side: Side)
      requires Valid()
      ensures Sorted(side, View(side).recs) && UniqueIds(View(side).recs)
      ensures forall i :: 0 <= i < |View(side).recs| ==>
        var r := View(side).recs[i];
        && r.side == side && r.id in orderIndex && orderIndex[r.id] < |orderPool.slots|
        && orderPool.slots[orderIndex[r.id]].data == r
    {
      SidesOk(Snapshot(), side);
      forall i | 0 <= i < |View(side).recs|
        ensures var r := View(side).recs[i];
          && r.side == side && r.id in orderIndex && orderIndex[r.id] < |orderPool.slots|
          && orderPool.slots[orderIndex[r.id]].data == r
      {
        RestingIndexed(Snapshot(), side, i);
      }
    }

    lemma IndexedHas(id: nat)
      requires Valid() && id in orderIndex
      ensures HasId(bids.recs + asks.recs, id)
    {
      assert Snapshot().IndexedQueued(id);
      var r := orderPool.slots[orderIndex[id]].data;
      var _ := IndexedRests(Snapshot(), id);
      var all := bids.recs + asks.recs;
      assert r in all;
      var i :| 0 <= i < |all| && all[i] == r;
    }

    /** With no order held, the pool is exhausted exactly when the book is full. */
    lemma Capacity()
      requires Valid() && held == {}
      ensures orderPool.Free() == {} <==> |bids.recs + asks.recs| >= MAX_ORDERS
    {
      Identities();
      IndexSize(Snapshot());
      hide Valid, Whole.Ok;
      IdCount(orderIndex, bids.recs + asks.recs);
      FreeCount(orderPool.Free(), orderIndex, |orderPool.slots|, held);
    }
  }
}
