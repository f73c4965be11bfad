/**
 One side of the book over the pools: which slots queue at which price, and how the price index, the
 levels and the cached best level mirror the side's single price-time sequence.
 */
module BookSides {
  import opened CoreTypes
  import opened PriceTime
  import opened PriceLevels

  /** recs is the side in price-time order; queues and drift give, per live price, the level's slots
      and the in-place reductions made there since the level was created. */
  datatype SideView = SideView(side: Side, recs: seq<OrderRec>, queues: map<int, seq<nat>>, drift: map<int, int>)

  /** The two pools' contents and the price index that one side's levels hang on. */
  datatype Store = Store(nodes: seq<Node>, levels: seq<Level>, tree: map<int, nat>)

  ghost predicate Carries(nodes: seq<Node>, q: seq<nat>, recs: seq<OrderRec>)
  {
    && |q| == |recs|
    && forall i :: 0 <= i < |q| ==> q[i] < |nodes| && nodes[q[i]].data == recs[i]
  }

  /** A level's list is, slot for slot, the part of recs at its price; its total is off by drift only. */
  ghost predicate LevelOk(v: SideView, nodes: seq<Node>, lv: Level, p: int) {
    && p in v.queues && p in v.drift
    && lv.price == p && 0 <= p < U64
    && v.queues[p] != []
    && Fifo(nodes, lv, v.queues[p])
    && Carries(nodes, v.queues[p], AtPrice(v.recs, p))
    && lv.aggregated == Open(AtPrice(v.recs, p)) + v.drift[p]
  }

  ghost predicate RecsOk(v: SideView, prices: set<int>) {
    && Sorted(v.side, v.recs)
    && (forall i :: 0 <= i < |v.recs| ==> v.recs[i].price in prices && v.recs[i].side == v.side)
  }

  ghost predicate SideOk(v: SideView, st: Store) {
    && st.tree.Keys == v.queues.Keys == v.drift.Keys
    && (forall p :: p in st.tree ==> st.tree[p] < |st.levels|)
    && (forall p {:trigger LevelOk(v, st.nodes, st.levels[st.tree[p]], p)} :: p in st.tree ==>
          LevelOk(v, st.nodes, st.levels[st.tree[p]], p))
    && RecsOk(v, st.tree.Keys)
  }

  ghost predicate LevelAt(v: SideView, st: Store, p: int)
    requires p in st.tree && st.tree[p] < |st.levels|
  {
    LevelOk(v, st.nodes, st.levels[st.tree[p]], p)
  }

  ghost function Queue(v: SideView, p: int): seq<nat> {
    if p in v.queues then v.queues[p] else []
  }

  /** The slot of the level in front, or NIL. */
  ghost function BestOf(v: SideView, tree: map<int, nat>): int {
    if v.recs == [] || v.recs[0].price !in tree then NIL else tree[v.recs[0].price]
  }

  lemma QueuedAt(v: SideView, st: Store, p: int)
    requires SideOk(v, st) && p in st.tree
    ensures forall s :: s in Slots(v.queues[p]) ==>
      s < |st.nodes| && st.nodes[s].data.price == p && st.nodes[s].data.side == v.side && st.nodes[s].data in v.recs
  {
    assert LevelAt(v, st, p);
    forall i | 0 <= i < |v.queues[p]|
      ensures st.nodes[v.queues[p][i]].data.price == p && st.nodes[v.queues[p][i]].data in v.recs
    {
      AtPriceFrom(v.recs, p, AtPrice(v.recs, p)[i]);
    }
  }

  /** Two prices never share a level, and their lists never share an order. */
  lemma LevelsApart(v: SideView, st: Store, p: int, p': int)
    requires SideOk(v, st) && p in st.tree && p' in st.tree && p != p'
    ensures st.tree[p] != st.tree[p']
    ensures Slots(v.queues[p]) !! Slots(v.queues[p'])
  {
    assert LevelAt(v, st, p) && LevelAt(v, st, p');
    QueuedAt(v, st, p);
    QueuedAt(v, st, p');
  }

  /** The index's extreme price is the front order's price. */
  lemma ExtremeIsFront(v: SideView, st: Store, p: int)
    requires SideOk(v, st) && p in st.tree
    requires forall p' :: p' in st.tree ==> Ahead(v.side, p, p')
    ensures v.recs != [] && v.recs[0].price == p
  {
    assert LevelAt(v, st, p);
    AtPriceFrom(v.recs, p, AtPrice(v.recs, p)[0]);
  }

  /** The listed slots hold the same nodes in both pools. */
  ghost predicate SameAt(nodes: seq<Node>, nodes': seq<Node>, q: seq<nat>) {
    forall i :: 0 <= i < |q| ==> q[i] < |nodes| && q[i] < |nodes'| && nodes'[q[i]] == nodes[q[i]]
  }

  /** A level whose slots were left alone survives any edit of recs away from its price. */
  lemma LevelKept(v: SideView, v': SideView, nodes: seq<Node>, nodes': seq<Node>, lv: Level, p: int)
    requires LevelOk(v, nodes, lv, p) && SameAt(nodes, nodes', v.queues[p])
    requires p in v'.queues && v'.queues[p] == v.queues[p] && p in v'.drift && v'.drift[p] == v.drift[p]
    requires AtPrice(v'.recs, p) == AtPrice(v.recs, p)
    ensures LevelOk(v', nodes', lv, p)
  {
  }

  lemma UntouchedSame(nodes: seq<Node>, nodes': seq<Node>, touched: set<nat>, lv: Level, q: seq<nat>)
    requires Relinked(nodes, nodes', touched) && Fifo(nodes, lv, q) && Slots(q) !! touched
    ensures SameAt(nodes, nodes', q)
  {
    forall i | 0 <= i < |q| ensures q[i] !in touched {
      assert q[i] in Slots(q);
    }
  }

  /** A whole side survives what happens to slots and levels it does not use. */
  lemma SideKept(v: SideView, st: Store, st': Store)
    requires SideOk(v, st) && st'.tree == st.tree
    requires forall p :: p in st.tree ==> SameAt(st.nodes, st'.nodes, Queue(v, p))
    requires |st'.levels| == |st.levels| && forall p :: p in st.tree ==> st'.levels[st.tree[p]] == st.levels[st.tree[p]]
    ensures SideOk(v, st')
  {
    hide Fifo;
    forall p | p in st.tree ensures LevelOk(v, st'.nodes, st'.levels[st.tree[p]], p) {
      assert LevelAt(v, st, p);
      LevelKept(v, v, st.nodes, st'.nodes, st.levels[st.tree[p]], p);
    }
  }

  // ----- joining a level

  ghost function Grown(v: SideView, o: nat, r: OrderRec): SideView {
    SideView(v.side, Place(v.recs, r), v.queues[r.price := Queue(v, r.price) + [o]],
             if r.price in v.drift then v.drift else v.drift[r.price := 0])
  }

  /** Slot o, carrying r, was linked behind the tail of level l, which is new if the price was. */
  ghost predicate LinkedIn(v: SideView, st: Store, st': Store, o: nat, r: OrderRec, l: nat) {
    && r.side == v.side && 0 <= r.price < U64
    && o < |st.nodes| && st.nodes[o].data == r
    && l < |st'.levels| == |st.levels|
    && (r.price in st.tree ==> st.tree[r.price] == l)
    && st'.tree == st.tree[r.price := l]
    && Relinked(st.nodes, st'.nodes, Slots(Queue(v, r.price)) + {o})
    && Fifo(st'.nodes, st'.levels[l], Queue(v, r.price) + [o])
    && st'.levels[l].price == r.price
    && st'.levels[l].aggregated == (if r.price in st.tree then st.levels[l].aggregated else 0) + r.rem
    && forall p :: p in st.tree && p != r.price ==>
         st.tree[p] < |st.levels| && st'.levels[st.tree[p]] == st.levels[st.tree[p]]
  }

  /** The level that an order at p is to join is at hand: the price's own, or a new one. */
  ghost predicate Roomy(v: SideView, st: Store, st1: Store, o: nat, p: int, l: nat) {
    && st1.nodes == st.nodes && st1.tree == st.tree[p := l] && l < |st1.levels| == |st.levels|
    && (if p in st.tree then st.tree[p] == l && st1.levels == st.levels && st.levels[l].price == p
        else st1.levels == st.levels[l := BLANK_LEVEL.(price := p)])
    && Fifo(st.nodes, st1.levels[l], Queue(v, p)) && o !in Queue(v, p)
    && forall p' :: p' in st.tree && p' != p ==> st.tree[p'] < |st.levels| && st.tree[p'] != l
  }

  lemma LinksIn(v: SideView, st: Store, st1: Store, st': Store, o: nat, r: OrderRec, l: nat)
    requires Roomy(v, st, st1, o, r.price, l) && st'.tree == st1.tree
    requires r.side == v.side && 0 <= r.price < U64 && o < |st.nodes| && st.nodes[o].data == r
    requires Relinked(st.nodes, st'.nodes, Slots(Queue(v, r.price)) + {o})
    requires |st'.levels| == |st1.levels| && st'.levels == st1.levels[l := st'.levels[l]]
    requires Fifo(st'.nodes, st'.levels[l], Queue(v, r.price) + [o])
    requires st'.levels[l].price == st1.levels[l].price
    requires st'.levels[l].aggregated == st1.levels[l].aggregated + r.rem
    ensures LinkedIn(v, st, st', o, r, l)
    ensures forall i :: 0 <= i < |st'.levels| && i != l ==> st'.levels[i] == st.levels[i]
  {
  }

  lemma GrownOk(v: SideView, st: Store, st': Store, o: nat, r: OrderRec, l: nat)
    requires SideOk(v, st) && LinkedIn(v, st, st', o, r, l)
    requires forall p :: p in v.queues ==> o !in v.queues[p]
    ensures SideOk(Grown(v, o, r), st')
  {
    hide LevelOk;
    GrownRecsOk(v, st, o, r);
    forall p | p in st'.tree ensures LevelOk(Grown(v, o, r), st'.nodes, st'.levels[st'.tree[p]], p) {
      PlaceAtPrice(v.recs, r, p);
      if p == r.price {
        GrownLevelOk(v, st, st', o, r, l);
      } else {
        GrownOtherOk(v, st, st', o, r, l, p);
      }
    }
  }

  lemma GrownRecsOk(v: SideView, st: Store, o: nat, r: OrderRec)
    requires SideOk(v, st) && r.side == v.side
    ensures RecsOk(Grown(v, o, r), st.tree.Keys + {r.price})
  {
    PlaceSorted(v.recs, r);
  }

  lemma GrownOtherOk(v: SideView, st: Store, st': Store, o: nat, r: OrderRec, l: nat, p: int)
    requires SideOk(v, st) && LinkedIn(v, st, st', o, r, l) && p in st.tree && p != r.price
    requires o !in v.queues[p] && AtPrice(Place(v.recs, r), p) == AtPrice(v.recs, p)
    ensures LevelOk(Grown(v, o, r), st'.nodes, st'.levels[st.tree[p]], p)
  {
    assert LevelAt(v, st, p);
    if r.price in st.tree {
      LevelsApart(v, st, p, r.price);
    }
    UntouchedSame(st.nodes, st'.nodes, Slots(Queue(v, r.price)) + {o}, st.levels[st.tree[p]], v.queues[p]);
    LevelKept(v, Grown(v, o, r), st.nodes, st'.nodes, st.levels[st.tree[p]], p);
  }

  lemma GrownLevelOk(v: SideView, st: Store, st': Store, o: nat, r: OrderRec, l: nat)
    requires SideOk(v, st) && LinkedIn(v, st, st', o, r, l)
    requires AtPrice(Place(v.recs, r), r.price) == AtPrice(v.recs, r.price) + [r]
    ensures LevelOk(Grown(v, o, r), st'.nodes, st'.levels[l], r.price)
  {
    OpenAppend(AtPrice(v.recs, r.price), [r]);
    if r.price in st.tree {
      assert LevelAt(v, st, r.price);
    } else {
      NoneAtPrice(v.recs, r.price);
    }
  }

  // ----- leaving a level

  /** The k-th order of the queue at p leaves; the level goes with its last order. */
  ghost function Shrunk(v: SideView, p: int, k: nat): SideView
    requires p in v.queues && k < |v.queues[p]| == |AtPrice(v.recs, p)|
  {
    var q := v.queues[p][..k] + v.queues[p][k + 1..];
    SideView(v.side, RemoveId(v.recs, AtPrice(v.recs, p)[k].id),
             if q == [] then v.queues - {p} else v.queues[p := q],
             if q == [] then v.drift - {p} else v.drift)
  }

  /** Levels that live on keep their record of in-place reductions. */
  ghost predicate DriftKept(v: SideView, v': SideView) {
    forall p :: p in v'.drift ==> p in v.drift && v'.drift[p] == v.drift[p]
  }

  ghost predicate UnlinkedFrom(v: SideView, st: Store, st': Store, p: int, k: nat) {
    && p in st.tree && p in v.queues && k < |v.queues[p]| == |AtPrice(v.recs, p)|
    && st.tree[p] < |st.levels| == |st'.levels|
    && Relinked(st.nodes, st'.nodes, Slots(v.queues[p]))
    && (if |v.queues[p]| == 1 then st'.tree == st.tree - {p}
        else
          && st'.tree == st.tree
          && Fifo(st'.nodes, st'.levels[st.tree[p]], v.queues[p][..k] + v.queues[p][k + 1..])
          && st'.levels[st.tree[p]].price == p
          && st'.levels[st.tree[p]].aggregated == st.levels[st.tree[p]].aggregated - AtPrice(v.recs, p)[k].rem)
    && forall p' :: p' in st.tree && p' != p ==>
         st.tree[p'] < |st.levels| && st'.levels[st.tree[p']] == st.levels[st.tree[p']]
  }

  /** The k-th order at p was unlinked, in the pools as they now are; the index is as before. */
  ghost predicate Unthreaded(v: SideView, st: Store, nodes': seq<Node>, levels': seq<Level>, p: int, k: nat) {
    && p in st.tree && p in v.queues && k < |v.queues[p]|
    && st.tree[p] < |st.levels| == |levels'| && Carries(st.nodes, v.queues[p], AtPrice(v.recs, p))
    && Relinked(st.nodes, nodes', Slots(v.queues[p]))
    && levels' == st.levels[st.tree[p] := levels'[st.tree[p]]]
    && Fifo(nodes', levels'[st.tree[p]], v.queues[p][..k] + v.queues[p][k + 1..])
    && levels'[st.tree[p]].price == p
    && levels'[st.tree[p]].aggregated == st.levels[st.tree[p]].aggregated - AtPrice(v.recs, p)[k].rem
    && forall p' :: p' in st.tree && p' != p ==> st.tree[p'] < |st.levels| && st.tree[p'] != st.tree[p]
  }

  lemma Unthreads(v: SideView, st: Store, nodes': seq<Node>, levels': seq<Level>, p: int, k: nat, o: nat)
    requires p in st.tree && p in v.queues && k < |v.queues[p]| && v.queues[p][k] == o < |nodes'|
    requires st.tree[p] < |st.levels| == |levels'| && Carries(st.nodes, v.queues[p], AtPrice(v.recs, p))
    requires Relinked(st.nodes, nodes', Slots(v.queues[p]))
    requires levels' == st.levels[st.tree[p] := levels'[st.tree[p]]]
    requires Fifo(nodes', levels'[st.tree[p]], v.queues[p][..k] + v.queues[p][k + 1..])
    requires levels'[st.tree[p]].price == st.levels[st.tree[p]].price == p
    requires levels'[st.tree[p]].aggregated == st.levels[st.tree[p]].aggregated - nodes'[o].data.rem
    requires forall p' :: p' in st.tree && p' != p ==> st.tree[p'] < |st.levels| && st.tree[p'] != st.tree[p]
    ensures Unthreaded(v, st, nodes', levels', p, k)
  {
  }

  lemma UnthreadedLevel(v: SideView, st: Store, nodes': seq<Node>, levels': seq<Level>, p: int, k: nat)
    requires Unthreaded(v, st, nodes', levels', p, k)
    ensures st.tree[p] < |levels'| && levels'[st.tree[p]].price == p
    ensures Empty(levels'[st.tree[p]]) <==> |v.queues[p]| == 1
  {
  }

  lemma UnlinksFrom(v: SideView, st: Store, st': Store, levels1: seq<Level>, p: int, k: nat)
    requires Unthreaded(v, st, st'.nodes, levels1, p, k)
    requires |v.queues[p]| == 1 ==> st'.tree == st.tree - {p} && st'.levels == levels1[st.tree[p] := BLANK_LEVEL]
    requires |v.queues[p]| != 1 ==> st'.tree == st.tree && st'.levels == levels1
    ensures UnlinkedFrom(v, st, st', p, k)
    ensures forall i :: 0 <= i < |st.levels| && i != st.tree[p] ==> st'.levels[i] == st.levels[i]
  {
    hide Fifo, Relinked;
  }

  lemma ShrunkOk(v: SideView, st: Store, st': Store, p: int, k: nat)
    requires SideOk(v, st) && UniqueIds(v.recs) && UnlinkedFrom(v, st, st', p, k)
    ensures SideOk(Shrunk(v, p, k), st')
  {
    hide LevelOk, RecsOk;
    var id := AtPrice(v.recs, p)[k].id;
    ShrunkRecsOk(v, st, p, k);
    forall p' | p' in st'.tree ensures LevelOk(Shrunk(v, p, k), st'.nodes, st'.levels[st'.tree[p']], p') {
      RemoveAtPrice(v.recs, id, p');
      if p' == p {
        ShrunkLevelOk(v, st, st', p, k);
      } else {
        ShrunkOtherOk(v, st, st', p, k, p');
      }
    }
  }

  lemma ShrunkRecsOk(v: SideView, st: Store, p: int, k: nat)
    requires SideOk(v, st) && UniqueIds(v.recs) && p in st.tree && k < |v.queues[p]| == |AtPrice(v.recs, p)|
    ensures RecsOk(Shrunk(v, p, k), if |v.queues[p]| == 1 then st.tree.Keys - {p} else st.tree.Keys)
  {
    var slice := AtPrice(v.recs, p);
    var recs' := RemoveId(v.recs, slice[k].id);
    RemoveSorted(v.side, v.recs, slice[k].id);
    forall i | 0 <= i < |recs'| ensures recs'[i] in v.recs && (|slice| == 1 ==> recs'[i].price != p) {
      if |slice| == 1 && recs'[i].price == p {
        var j :| 0 <= j < |v.recs| && v.recs[j] == recs'[i];
        AtPriceMember(v.recs, p, j);
      }
    }
  }

  lemma ShrunkOtherOk(v: SideView, st: Store, st': Store, p: int, k: nat, p': int)
    requires SideOk(v, st) && UniqueIds(v.recs) && UnlinkedFrom(v, st, st', p, k) && p' in st.tree && p' != p
    requires AtPrice(RemoveId(v.recs, AtPrice(v.recs, p)[k].id), p') ==
      RemoveId(AtPrice(v.recs, p'), AtPrice(v.recs, p)[k].id)
    ensures LevelOk(Shrunk(v, p, k), st'.nodes, st'.levels[st.tree[p']], p')
  {
    assert LevelAt(v, st, p');
    LevelsApart(v, st, p, p');
    ElsewhereAbsent(v.recs, p, k, p');
    UntouchedSame(st.nodes, st'.nodes, Slots(v.queues[p]), st.levels[st.tree[p']], v.queues[p']);
    LevelKept(v, Shrunk(v, p, k), st.nodes, st'.nodes, st.levels[st.tree[p']], p');
  }

  /** An order's id does not occur at any other price. */
  lemma ElsewhereAbsent(s: seq<OrderRec>, p: int, k: nat, p': int)
    requires UniqueIds(s) && k < |AtPrice(s, p)| && p' != p
    ensures RemoveId(AtPrice(s, p'), AtPrice(s, p)[k].id) == AtPrice(s, p')
  {
    AtPriceFrom(s, p, AtPrice(s, p)[k]);
    forall i | 0 <= i < |AtPrice(s, p')| ensures AtPrice(s, p')[i].id != AtPrice(s, p)[k].id {
      AtPriceFrom(s, p', AtPrice(s, p')[i]);
    }
    RemoveAbsent(AtPrice(s, p'), AtPrice(s, p)[k].id);
  }

  lemma ShrunkLevelOk(v: SideView, st: Store, st': Store, p: int, k: nat)
    requires SideOk(v, st) && UniqueIds(v.recs) && UnlinkedFrom(v, st, st', p, k) && |v.queues[p]| > 1
    requires AtPrice(RemoveId(v.recs, AtPrice(v.recs, p)[k].id), p) ==
      RemoveId(AtPrice(v.recs, p), AtPrice(v.recs, p)[k].id)
    ensures LevelOk(Shrunk(v, p, k), st'.nodes, st'.levels[st.tree[p]], p)
  {
    hide Fifo, RecsOk;
    assert LevelAt(v, st, p);
    var slice, q := AtPrice(v.recs, p), v.queues[p];
    AtPriceUnique(v.recs, p);
    RemoveAt(slice, k);
    OpenCut(slice, k);
    CarriesCut(st.nodes, st'.nodes, q, slice, k);
  }

  lemma CarriesCut(nodes: seq<Node>, nodes': seq<Node>, q: seq<nat>, slice: seq<OrderRec>, k: nat)
    requires Carries(nodes, q, slice) && Relinked(nodes, nodes', Slots(q)) && k < |q|
    ensures Carries(nodes', q[..k] + q[k + 1..], slice[..k] + slice[k + 1..])
  {
    var q', slice' := q[..k] + q[k + 1..], slice[..k] + slice[k + 1..];
    forall i | 0 <= i < |q'| ensures q'[i] < |nodes'| && nodes'[q'[i]].data == slice'[i] {
      var j := if i < k then i else i + 1;
      assert q'[i] == q[j] && slice'[i] == slice[j];
    }
  }

  // ----- editing an order where it rests

  ghost function Edited(v: SideView, r: OrderRec, d: int): SideView {
    v.(recs := ReplaceId(v.recs, r),
       drift := if r.price in v.drift then v.drift[r.price := v.drift[r.price] + d] else v.drift)
  }

  /** The k-th order at r's price now carries r; d of its change in remainder the level's total missed. */
  ghost predicate EditedAt(v: SideView, st: Store, st': Store, r: OrderRec, k: nat, d: int) {
    var p := r.price;
    && p in st.tree && p in v.queues && k < |v.queues[p]| == |AtPrice(v.recs, p)|
    && AtPrice(v.recs, p)[k].id == r.id && r.side == v.side
    && st'.tree == st.tree && st.tree[p] < |st.levels| == |st'.levels|
    && v.queues[p][k] < |st.nodes|
    && st'.nodes == st.nodes[v.queues[p][k] := st.nodes[v.queues[p][k]].(data := r)]
    && st'.levels[st.tree[p]] == st.levels[st.tree[p]].(aggregated :=
         st.levels[st.tree[p]].aggregated + r.rem - AtPrice(v.recs, p)[k].rem + d)
    && forall p' :: p' in st.tree && p' != p ==>
         st.tree[p'] < |st.levels| && st'.levels[st.tree[p']] == st.levels[st.tree[p']]
  }

  lemma Edits(v: SideView, st: Store, st': Store, r: OrderRec, k: nat, gain: int, d: int)
    requires r.price in st.tree && r.price in v.queues && k < |v.queues[r.price]| == |AtPrice(v.recs, r.price)|
    requires AtPrice(v.recs, r.price)[k].id == r.id && r.side == v.side && st'.tree == st.tree
    requires st.tree[r.price] < |st.levels| && v.queues[r.price][k] < |st.nodes|
    requires st'.nodes == st.nodes[v.queues[r.price][k] := st.nodes[v.queues[r.price][k]].(data := r)]
    requires |st'.levels| == |st.levels|
    requires st'.levels[st.tree[r.price]] ==
      st.levels[st.tree[r.price]].(aggregated := st.levels[st.tree[r.price]].aggregated + gain)
    requires forall i :: 0 <= i < |st.levels| && i != st.tree[r.price] ==> st'.levels[i] == st.levels[i]
    requires forall p :: p in st.tree && p != r.price ==> st.tree[p] < |st.levels| && st.tree[p] != st.tree[r.price]
    requires d == gain - (r.rem - AtPrice(v.recs, r.price)[k].rem)
    ensures EditedAt(v, st, st', r, k, d)
    ensures forall i :: 0 <= i < |st.levels| && i != st.tree[r.price] ==> st'.levels[i] == st.levels[i]
  {
  }

  lemma EditedOk(v: SideView, st: Store, st': Store, r: OrderRec, k: nat, d: int)
    requires SideOk(v, st) && UniqueIds(v.recs) && EditedAt(v, st, st', r, k, d)
    ensures SideOk(Edited(v, r, d), st')
  {
    hide LevelOk;
    EditedRecsOk(v, st, r, k);
    forall p' | p' in st.tree ensures LevelOk(Edited(v, r, d), st'.nodes, st'.levels[st.tree[p']], p') {
      if p' == r.price {
        EditedLevelOk(v, st, st', r, k, d);
      } else {
        EditedOtherOk(v, st, st', r, k, d, p');
      }
    }
  }

  /** r's id belongs to the k-th order at r's price and to no other order of the side. */
  lemma EditTarget(v: SideView, r: OrderRec, k: nat)
    requires UniqueIds(v.recs) && k < |AtPrice(v.recs, r.price)| && AtPrice(v.recs, r.price)[k].id == r.id
    ensures forall i :: 0 <= i < |v.recs| && v.recs[i].id == r.id ==> v.recs[i].price == r.price
    ensures forall i :: 0 <= i < |AtPrice(v.recs, r.price)| && i != k ==> AtPrice(v.recs, r.price)[i].id != r.id
  {
    AtPriceFrom(v.recs, r.price, AtPrice(v.recs, r.price)[k]);
    AtPriceUnique(v.recs, r.price);
  }

  lemma EditedRecsOk(v: SideView, st: Store, r: OrderRec, k: nat)
    requires SideOk(v, st) && UniqueIds(v.recs) && r.side == v.side && r.price in st.tree
    requires k < |AtPrice(v.recs, r.price)| && AtPrice(v.recs, r.price)[k].id == r.id
    ensures RecsOk(Edited(v, r, 0), st.tree.Keys)
  {
    ReplaceShape(v.recs, r);
    EditTarget(v, r, k);
  }

  /** Replacing an order by another of the same id and price shows at its position there and nowhere else. */
  lemma ReplaceSlices(s: seq<OrderRec>, r: OrderRec, k: nat)
    requires UniqueIds(s) && k < |AtPrice(s, r.price)| && AtPrice(s, r.price)[k].id == r.id
    ensures forall p :: AtPrice(ReplaceId(s, r), p) == if p == r.price then AtPrice(s, p)[k := r] else AtPrice(s, p)
  {
    AtPriceFrom(s, r.price, AtPrice(s, r.price)[k]);
    forall p ensures AtPrice(ReplaceId(s, r), p) == if p == r.price then AtPrice(s, p)[k := r] else AtPrice(s, p) {
      ReplaceAtPrice(s, r, p);
      ReplaceShape(AtPrice(s, p), r);
      AtPriceUnique(s, p);
      forall i | 0 <= i < |AtPrice(s, p)| ensures AtPrice(s, p)[i] in s && AtPrice(s, p)[i].price == p {
        AtPriceFrom(s, p, AtPrice(s, p)[i]);
      }
    }
  }

  lemma EditedOtherOk(v: SideView, st: Store, st': Store, r: OrderRec, k: nat, d: int, p': int)
    requires SideOk(v, st) && UniqueIds(v.recs) && EditedAt(v, st, st', r, k, d) && p' in st.tree && p' != r.price
    ensures LevelOk(Edited(v, r, d), st'.nodes, st'.levels[st.tree[p']], p')
  {
    hide Fifo;
    assert LevelAt(v, st, p');
    LevelsApart(v, st, r.price, p');
    ReplaceSlices(v.recs, r, k);
    forall i | 0 <= i < |v.queues[p']| ensures v.queues[p'][i] != v.queues[r.price][k] {
      assert v.queues[p'][i] in Slots(v.queues[p']) && v.queues[r.price][k] in Slots(v.queues[r.price]);
    }
    LevelKept(v, Edited(v, r, d), st.nodes, st'.nodes, st.levels[st.tree[p']], p');
  }

  lemma EditedLevelOk(v: SideView, st: Store, st': Store, r: OrderRec, k: nat, d: int)
    requires SideOk(v, st) && UniqueIds(v.recs) && EditedAt(v, st, st', r, k, d)
    ensures LevelOk(Edited(v, r, d), st'.nodes, st'.levels[st.tree[r.price]], r.price)
  {
    hide Fifo, RecsOk, UniqueIds, Carries;
    assert LevelAt(v, st, r.price);
    var slice := AtPrice(v.recs, r.price);
    ReplaceSlices(v.recs, r, k);
    OpenReplace(slice, k, r);
    CarriesEdit(st.nodes, st'.nodes, v.queues[r.price], slice, k, r, st.levels[st.tree[r.price]]);
    FifoData(st.nodes, st'.nodes, st.levels[st.tree[r.price]], st'.levels[st.tree[r.price]], v.queues[r.price], k, r);
  }

  lemma FifoData(nodes: seq<Node>, nodes': seq<Node>, lv: Level, lv': Level, q: seq<nat>, k: nat, r: OrderRec)
    requires Fifo(nodes, lv, q) && k < |q| && q[k] < |nodes|
    requires nodes' == nodes[q[k] := nodes[q[k]].(data := r)]
    requires lv'.head == lv.head && lv'.tail == lv.tail
    ensures Fifo(nodes', lv', q)
  {
  }

  lemma CarriesEdit(nodes: seq<Node>, nodes': seq<Node>, q: seq<nat>, slice: seq<OrderRec>, k: nat, r: OrderRec,
                    lv: Level)
    requires Carries(nodes, q, slice) && Fifo(nodes, lv, q) && k < |q| && q[k] < |nodes|
    requires nodes' == nodes[q[k] := nodes[q[k]].(data := r)]
    ensures Carries(nodes', q, slice[k := r])
  {
  }
}
