/** The matching engine of one symbol: the book, its log and the events it emits, refining EngineSpec. */
module MatchingEngines {
  import opened CoreTypes
  import opened PriceTime
  import opened PriceLevels
  import opened BookSides
  import opened OrderBooks
  import opened Sweeps
  import opened EngineSpec
  import opened Runs
  import BookInvariants
  import opened Wal
  import opened LevelTotals
  import opened Recoveries

  class MatchingEngine {
    const orderBook: OrderBook
    const wal: WALSystem
    var isRecovering: bool
    var inModify: bool
    var out: seq<Event>  // what the four output queues receive, in order of emission

    ghost predicate Valid()
      reads orderBook.Footprint()
    {
      orderBook.Valid()
    }

    ghost function Resting(): Book
      reads orderBook
    {
      Book(orderBook.bids.recs, orderBook.asks.recs)
    }

    ghost function Sides(): Views
      reads orderBook
    {
      Views(orderBook.bids, orderBook.asks)
    }

    ghost function State(): Engine
      reads this, orderBook, wal
    {
      Engine(Resting(), ReadAll(wal.entries), wal.trades, out)
    }

    ghost function InMode(): Mode
      reads this
    {
      Mode(isRecovering, inModify)
    }

    /** Starts from whatever log an earlier process left; clock is what the wall clock reads per record. */
    constructor (existing: seq<LogEntry>, clock: seq<nat>)
      requires |clock| == |existing| && Ready(EMPTY, Requests(existing, clock), true)
      ensures Valid() && orderBook.held == {} && !isRecovering && !inModify
      ensures fresh(orderBook.Footprint()) && fresh(wal)
      ensures Restored(existing, clock)
    {
      hide OrderBook.Valid, Restored, Ready, Run, Requests, ReadAll;
      orderBook := new OrderBook();
      wal := new WALSystem(existing);
      isRecovering, inModify, out := false, false, [];
      new;
      Recover(clock);
    }

    /** The state is that of the log's quiet run, the log itself is kept, nothing has been emitted, and every
        level's gap is what the log's cuts say. */
    ghost predicate Restored(log: seq<LogEntry>, clock: seq<nat>)
      requires |clock| == |log| && Ready(EMPTY, Requests(log, clock), true)
      reads this, orderBook, wal
    {
      && State() == Engine(Run(EMPTY, Requests(log, clock), true).book, ReadAll(log), [], [])
      && CountedFresh(orderBook.bids, EMPTY, Requests(log, clock), true, Buy)
      && CountedFresh(orderBook.asks, EMPTY, Requests(log, clock), true, Sell)
    }

    method PushBookUpdate(ts: nat)
      requires Valid()
      modifies this`out
      ensures Valid()
      ensures out == old(out) + if isRecovering then [] else [Quote(Resting(), ts)]
    {
      if isRecovering {
        return;
      }
      var bid := orderBook.BestBidPrice();
      var ask := orderBook.BestAskPrice();
      out := out + [QuoteUpdate(bid, ask, ts)];
    }

    method PushCancelAck(id: nat, user: nat, state: OrderState, rem: int, ts: nat)
      modifies this`out
      ensures out == old(out) + if isRecovering then [] else [CancelAck(id, user, rem, state, ts)]
    {
      if isRecovering {
        return;
      }
      out := out + [CancelAck(id, user, rem, state, ts)];
    }

    method PushModifyAck(id: nat, user: nat, rem: int, state: OrderState, ts: nat)
      modifies this`out
      ensures out == old(out) + if isRecovering then [] else [ModifyAck(id, user, rem, state, ts)]
    {
      if isRecovering {
        return;
      }
      out := out + [ModifyAck(id, user, rem, state, ts)];
    }

    method PushDbAccept(r: OrderRec, ts: nat)
      modifies this`out
      ensures out == old(out) + if isRecovering || inModify then [] else
                [DbPlain(DbKind.Accepted, r.(state := New, rem := r.qty), ts)]
    {
      if isRecovering || inModify {
        return;
      }
      out := out + [DbPlain(DbKind.Accepted, r.(state := New, rem := r.qty), ts)];
    }

    method PushDbCancel(r: OrderRec, ts: nat)
      modifies this`out
      ensures out == old(out) + if isRecovering then [] else
                [DbPlain(DbKind.Cancelled, r.(state := OrderState.Cancelled), ts)]
    {
      if isRecovering {
        return;
      }
      out := out + [DbPlain(DbKind.Cancelled, r.(state := OrderState.Cancelled), ts)];
    }

    method PushDbModify(r: OrderRec, ts: nat, fillQty: int)
      modifies this`out
      ensures out == old(out) + if isRecovering then [] else
                [Db(DbEvent(DbKind.Modified, Stamped(r, ts), 0, fillQty, 0, 0))]
    {
      if isRecovering {
        return;
      }
      out := out + [Db(DbEvent(DbKind.Modified, Stamped(r, ts), 0, fillQty, 0, 0))];
    }

    method PushFillOrderEvent(r: OrderRec, price: int, qty: int, ts: nat)
      modifies this`out
      ensures out == old(out) + if isRecovering then [] else [OrderFill(r.id, r.user, price, qty, r.rem, r.state, ts)]
    {
      if isRecovering {
        return;
      }
      out := out + [OrderFill(r.id, r.user, price, qty, r.rem, r.state, ts)];
    }

    method PushTrade(side: Side, price: int, traded: int, ts: nat)
      requires Valid()
      modifies this`out
      ensures Valid()
      ensures out == old(out) + if isRecovering then [] else
                [TradePrint(side, price, traded, Front(Resting().bids), Front(Resting().asks), ts)]
    {
      if isRecovering {
        return;
      }
      var bid := orderBook.BestBidPrice();
      var ask := orderBook.BestAskPrice();
      out := out + [TradePrint(side, price, traded, bid, ask, ts)];
    }

    method PushDbFill(r: OrderRec, price: int, traded: int, peer: OrderRec, ts: nat)
      modifies this`out
      ensures out == old(out) + if isRecovering then [] else
                [Db(DbEvent(DbKind.Filled, Stamped(r, ts), price, traded, peer.id, peer.user))]
    {
      if isRecovering {
        return;
      }
      out := out + [Db(DbEvent(DbKind.Filled, Stamped(r, ts), price, traded, peer.id, peer.user))];
    }

    method EmitPostTradeEvents(g: OrderRec, r: OrderRec, price: int, traded: int, ts: nat)
      requires Valid() && price == r.price
      modifies this`out
      ensures Valid()
      ensures out == old(out) + if isRecovering then [] else
                ActEvents(Fill(g, r, traded, Front(Resting().Of(g.side.Opposite()))), g.side,
                          Front(Resting().Of(g.side)), ts)
    {
      hide OrderBook.Valid;
      PushDbFill(g, price, traded, r, ts);
      PushDbFill(r, price, traded, g, ts);
      PushFillOrderEvent(g, price, traded, ts);
      PushFillOrderEvent(r, price, traded, ts);
      PushTrade(g.side, price, traded, ts);
    }

    method ExecuteTrade(g: OrderRec, r: OrderRec, price: int, qty: int)
      modifies wal
      ensures ReadAll(wal.entries) == old(ReadAll(wal.entries))
      ensures wal.trades == old(wal.trades) + if isRecovering then [] else [TradeLine(g.id, r.id, price, qty)]
    {
      if !isRecovering {
        wal.LogTrade(g.id, r.id, price, qty);
      }
    }

    /** Recomputes an order's state from its quantity and remainder. */
    method UpdateOrderState(o: nat)
      requires orderBook.Valid() && o < |orderBook.orderPool.slots|
      requires o !in orderBook.held ==>
        var id := orderBook.orderPool.slots[o].data.id; id in orderBook.orderIndex && orderBook.orderIndex[id] == o
      modifies orderBook`bids, orderBook`asks, orderBook.orderPool`slots
      ensures orderBook.Valid()
      ensures var r := old(orderBook.orderPool.slots)[o].data;
        && orderBook.orderPool.slots ==
           old(orderBook.orderPool.slots)[o := old(orderBook.orderPool.slots)[o].(data := r.Restated())]
        && (o in orderBook.held ==> orderBook.bids == old(orderBook.bids) && orderBook.asks == old(orderBook.asks))
        && (o !in orderBook.held ==> orderBook.View(r.side) == Edited(old(orderBook.View(r.side)), r.Restated(), 0))
        && (o !in orderBook.held ==> orderBook.View(r.side.Opposite()) == old(orderBook.View(r.side.Opposite())))
    {
      hide OrderBook.Valid, Edited;
      var r := orderBook.orderPool.slots[o].data;
      var state;
      if r.rem == r.qty {
        state := New;
      } else if r.rem == 0 {
        state := OrderState.Filled;
      } else {
        state := PartiallyFilled;
      }
      orderBook.StoreOrder(o, r.(state := state));
    }

    function Held(o: nat): OrderRec
      requires o < |orderBook.orderPool.slots|
      reads orderBook.orderPool
    {
      orderBook.orderPool.slots[o].data
    }

    /** The incoming order in slot o meets the front order of the other side, in slot resting. */
    ghost predicate Turn(o: nat, resting: nat)
      reads this, orderBook.Footprint()
    {
      && Valid() && o in orderBook.held && o < |orderBook.orderPool.slots| && resting < |orderBook.orderPool.slots|
      && var s := Resting().Of(Held(o).side.Opposite());
      && AllSound(s) && !Stops(s, Held(o)) && Held(resting) == s[0]
      && s[0].id in orderBook.orderIndex && orderBook.orderIndex[s[0].id] == resting
    }

    lemma Facts(o: nat, resting: nat)
      requires Turn(o, resting)
      ensures Valid() && o in orderBook.held && o < |orderBook.orderPool.slots| && resting < |orderBook.orderPool.slots|
      ensures Resting().Of(Held(o).side.Opposite()) != [] && Held(resting) == Resting().Of(Held(o).side.Opposite())[0]
      ensures Held(resting).id in orderBook.orderIndex && orderBook.orderIndex[Held(resting).id] == resting
      ensures var s := Resting().Of(Held(o).side.Opposite());
        && UniqueIds(s) && Held(resting).side == Held(o).side.Opposite() && o != resting && resting !in orderBook.held
        && RemoveId(s, Held(resting).id) == s[1..]
    {
      orderBook.Identities();
      orderBook.SideRecs(Held(o).side.Opposite());
      orderBook.NotHeld(resting, Held(resting).id);
      FrontEdits(Resting().Of(Held(o).side.Opposite()), Held(resting));
    }

    /** Takes a resting order out of the book and reports it cancelled. */
    method Withdraw(o: nat, state: OrderState, ts: nat)
      requires Valid() && o < |orderBook.orderPool.slots|
      requires Held(o).id in orderBook.orderIndex && orderBook.orderIndex[Held(o).id] == o
      modifies this`out, orderBook.Footprint()
      ensures Valid() && orderBook.held == old(orderBook.held)
      ensures Resting() == Without(old(Resting()), old(Held(o)))
      ensures OnlyLeft(old(Sides()), Sides(), old(Held(o)).side.Opposite())
      ensures |orderBook.orderPool.slots| == old(|orderBook.orderPool.slots|)
      ensures forall i :: 0 <= i < |orderBook.orderPool.slots| && i != o ==>
        Held(i) == old(orderBook.orderPool.slots)[i].data
      ensures out ==
        old(out) + if isRecovering then [] else CancelEvents(old(Resting()), old(Held(o)).(state := state), ts)
    {
      hide OrderBook.Valid;
      var r := Held(o);
      orderBook.RemoveOrder(o);
      PushBookUpdate(ts);
      PushCancelAck(r.id, r.user, state, r.rem, ts);
      PushDbCancel(r, ts);
    }

    /** One turn of the match loop against the incoming user's own order. */
    method CancelOnContact(o: nat, resting: nat, ts: nat)
      requires Turn(o, resting) && Held(resting).user == Held(o).user
      modifies this`out, orderBook.Footprint(), wal
      ensures Valid() && orderBook.held == old(orderBook.held) && o < |orderBook.orderPool.slots|
      ensures Held(o) == old(Held(o))
      ensures State() == Turned(old(State()), old(Held(o)), isRecovering, ts)
      ensures OnlyLeft(old(Sides()), Sides(), old(Held(o)).side)
    {
      hide OrderBook.Valid, Turned, AllSound, Stops, CancelEvents, ReadAll, RemoveId;
      Facts(o, resting);
      ghost var e, inc := State(), Held(o);
      if !isRecovering {
        wal.LogCancel(Held(resting).id);
      }
      Withdraw(resting, OrderState.Cancelled, ts);
      SelfCancelTurn(e, inc, State(), isRecovering, ts);
    }

    /** Takes the quantity out of the front order of its side. */
    method ReduceResident(resting: nat, traded: int, ghost s: seq<OrderRec>)
      requires Valid() && resting < |orderBook.orderPool.slots| && resting !in orderBook.held
      requires Held(resting).id in orderBook.orderIndex && orderBook.orderIndex[Held(resting).id] == resting
      requires s == Resting().Of(Held(resting).side) && s != [] && s[0] == Held(resting) && UniqueIds(s)
      modifies orderBook`bids, orderBook`asks, orderBook.orderPool`slots, orderBook.levelPool`slots
      ensures Valid()
      ensures var r := old(Held(resting)); var snap := Reduced(r, traded);
        && orderBook.orderPool.slots ==
           old(orderBook.orderPool.slots)[resting := old(orderBook.orderPool.slots)[resting].(data := snap)]
        && Resting().Of(r.side) == [snap] + s[1..] && RemoveId([snap] + s[1..], snap.id) == s[1..]
        && OnlyLeft(old(Sides()), Sides(), r.side.Opposite())
    {
      hide OrderBook.Valid, ReplaceId, RemoveId;
      var r := Held(resting);
      orderBook.ConsumeOrder(resting, traded);
      UpdateOrderState(resting);
      FrontRewrites(s, r.(rem := r.rem - traded), Reduced(r, traded));
    }

    /** Takes the traded quantity out of both orders. */
    method ReduceBoth(o: nat, resting: nat, traded: int) returns (snap: OrderRec)
      requires Turn(o, resting) && Held(resting).user != Held(o).user
      requires traded == Min(Held(o).rem, Held(resting).rem)
      modifies orderBook.Footprint()
      ensures Valid() && orderBook.held == old(orderBook.held) && o < |orderBook.orderPool.slots|
      ensures snap == Reduced(old(Held(resting)), traded)
      ensures Held(o) == Reduced(old(Held(o)), traded)
      ensures OnlyLeft(old(Sides()), Sides(), old(Held(o)).side)
      ensures Resting().Of(Held(o).side) == old(Resting().Of(Held(o).side))
      ensures Resting().Of(Held(o).side.Opposite()) == [snap] + old(Resting().Of(Held(o).side.Opposite()))[1..]
      ensures RemoveId([snap] + old(Resting().Of(Held(o).side.Opposite()))[1..], snap.id) ==
        old(Resting().Of(Held(o).side.Opposite()))[1..]
      ensures resting < |orderBook.orderPool.slots| && Held(resting) == snap && o != resting
      ensures snap.id in orderBook.orderIndex && orderBook.orderIndex[snap.id] == resting
    {
      hide OrderBook.Valid, Turn, AllSound, Stops;
      Facts(o, resting);
      var g, r := Held(o), Held(resting);
      ghost var s := Resting().Of(r.side);
      orderBook.StoreOrder(o, g.(rem := g.rem - traded));
      ReduceResident(resting, traded, s);
      UpdateOrderState(o);
      snap := Held(resting);
    }

    /** And a filled resting order out of the book. */
    method Take(o: nat, resting: nat, traded: int) returns (snap: OrderRec)
      requires Turn(o, resting) && Held(resting).user != Held(o).user
      requires traded == Min(Held(o).rem, Held(resting).rem)
      modifies orderBook.Footprint()
      ensures Valid() && orderBook.held == old(orderBook.held) && o < |orderBook.orderPool.slots|
      ensures snap == Reduced(old(Held(resting)), traded)
      ensures Held(o) == Reduced(old(Held(o)), traded)
      ensures OnlyLeft(old(Sides()), Sides(), old(Held(o)).side)
      ensures Resting().Of(Held(o).side) == old(Resting().Of(Held(o).side))
      ensures Resting().Of(Held(o).side.Opposite()) ==
        (if snap.state.Filled? then [] else [snap]) + old(Resting().Of(Held(o).side.Opposite()))[1..]
    {
      hide OrderBook.Valid, AllSound, Stops;
      Facts(o, resting);
      snap := ReduceBoth(o, resting, traded);
      if snap.state.Filled? {
        orderBook.RemoveOrder(resting);
      }
    }

    /** One turn of the match loop against another user's order. */
    method TradeWith(o: nat, resting: nat, ts: nat)
      requires Turn(o, resting) && Held(resting).user != Held(o).user
      modifies this`out, orderBook.Footprint(), wal
      ensures Valid() && orderBook.held == old(orderBook.held) && o < |orderBook.orderPool.slots|
      ensures Held(o) == IncAfter(old(Resting().Of(Held(o).side.Opposite())), old(Held(o)))
      ensures State() == Turned(old(State()), old(Held(o)), isRecovering, ts)
      ensures OnlyLeft(old(Sides()), Sides(), old(Held(o)).side)
    {
      hide OrderBook.Valid, Turned, ActEvents;
      var g, r := Held(o), Held(resting);
      ghost var e := State();
      var traded := Min(g.rem, r.rem);
      ExecuteTrade(g, r, r.price, traded);
      var snap := Take(o, resting, traded);
      EmitPostTradeEvents(Held(o), snap, r.price, traded, ts);
      FillTurn(e, g, snap, Held(o), State(), isRecovering, ts);
    }

    method TakeTurn(o: nat, resting: nat, ts: nat)
      requires Turn(o, resting)
      modifies this`out, orderBook.Footprint(), wal
      ensures Valid() && orderBook.held == old(orderBook.held) && o < |orderBook.orderPool.slots|
      ensures Held(o) == IncAfter(old(Resting().Of(Held(o).side.Opposite())), old(Held(o)))
      ensures State() == Turned(old(State()), old(Held(o)), isRecovering, ts)
      ensures OnlyLeft(old(Sides()), Sides(), old(Held(o)).side)
    {
      hide OrderBook.Valid, Turned;
      if Held(o).user == Held(resting).user {
        CancelOnContact(o, resting, ts);
      } else {
        TradeWith(o, resting, ts);
      }
    }

    /** Sweeps the opposite side in price-time order until the incoming order stops. */
    method Match(o: nat, ts: nat)
      requires Valid() && o in orderBook.held && o < |orderBook.orderPool.slots|
      requires AllSound(Resting().Of(Held(o).side.Opposite()))
      modifies this`out, orderBook.Footprint(), wal
      ensures Valid() && orderBook.held == old(orderBook.held) && o < |orderBook.orderPool.slots|
      ensures Held(o) == EngineSpec.Match(old(Resting()), old(Held(o))).inc
      ensures State() == Matched(old(State()), old(Held(o)).side, EngineSpec.Match(old(Resting()), old(Held(o))).acts,
                                 EngineSpec.Match(old(Resting()), old(Held(o))).rest, isRecovering, ts)
      ensures OnlyLeft(old(Sides()), Sides(), old(Held(o)).side)
    {
      hide OrderBook.Valid, Turned, Underway, Sweep, OnlyLeft, ReadAll, IncAfter, RestAfter, ActOf;
      LeftSelf(Sides(), Held(o).side);
      ghost var e0, inc0, acts := State(), Held(o), [];
      var opposite := Held(o).side.Opposite();
      UnderwayStart(e0, inc0, isRecovering, ts);
      while Held(o).rem > 0
        invariant Valid() && orderBook.held == old(orderBook.held) && o < |orderBook.orderPool.slots|
        invariant Held(o).side == inc0.side && AllSound(Resting().Of(opposite))
        invariant OnlyLeft(old(Sides()), Sides(), inc0.side)
        invariant Underway(e0, inc0, acts, State(), Held(o), isRecovering, ts)
        decreases Held(o).rem, |Resting().Of(opposite)|
      {
        var resting := orderBook.GetOrderAtBestPrice(opposite);
        if resting == NIL {
          break;
        }
        var inc, best := Held(o), Held(resting).price;
        if inc.kind.Limit? {
          if inc.side.Buy? && inc.price < best {
            break;
          }
          if inc.side.Sell? && inc.price > best {
            break;
          }
        }
        UnderwayStep(e0, inc0, acts, State(), inc, isRecovering, ts);
        acts := acts + [ActOf(Resting().Of(opposite), inc)];
        ghost var v := Sides();
        TakeTurn(o, resting, ts);
        LeftAlong(old(Sides()), v, Sides(), inc0.side);
      }
      UnderwayEnd(e0, inc0, acts, State(), Held(o), isRecovering, ts);
    }

    /** Takes a slot from the pool for a new order, or none if the pool is exhausted. */
    method Admit(r: OrderRec, ts: nat) returns (slot: Option<nat>)
      requires Valid() && orderBook.held == {}
      modifies orderBook.Footprint()
      ensures Valid() && orderBook.bids == old(orderBook.bids) && orderBook.asks == old(orderBook.asks)
      ensures slot.None? <==> Full(old(Resting()))
      ensures slot.None? ==> orderBook.held == {}
      ensures slot.Some? ==> orderBook.held == {slot.value} && slot.value < |orderBook.orderPool.slots|
      ensures slot.Some? ==> Held(slot.value) == r.(ts := ts)
    {
      hide OrderBook.Valid;
      orderBook.Capacity();
      slot := orderBook.RequestAllocationOfOrder();
      if slot.Some? {
        orderBook.AssignOrder(slot.value, r);
        orderBook.StoreOrder(slot.value, r.(ts := ts));
      }
    }

    /** The swept order's last state: a market remainder is cancelled, and only acknowledged. */
    method Close(o: nat, ts: nat)
      requires Valid() && o in orderBook.held && o < |orderBook.orderPool.slots|
      modifies this`out, orderBook.Footprint()
      ensures Valid() && orderBook.held == old(orderBook.held) && o < |orderBook.orderPool.slots|
      ensures Held(o) == Closing(old(Held(o)))
      ensures orderBook.bids == old(orderBook.bids) && orderBook.asks == old(orderBook.asks)
      ensures out == old(out) + if isRecovering then [] else
                (if Held(o).state.Cancelled?
                 then [CancelAck(Held(o).id, Held(o).user, Held(o).rem, Held(o).state, ts)]
                 else [])
    {
      hide OrderBook.Valid;
      UpdateOrderState(o);
      var r := Held(o);
      if r.kind.Market? && r.rem > 0 {
        orderBook.StoreOrder(o, r.(state := OrderState.Cancelled));
        PushCancelAck(r.id, r.user, OrderState.Cancelled, r.rem, ts);
      }
    }

    method ComeToRest(o: nat, ts: nat)
      requires Valid() && orderBook.held == {o} && o < |orderBook.orderPool.slots|
      requires Held(o).id !in orderBook.orderIndex && 0 <= Held(o).price < U64
      modifies this`out, orderBook.Footprint()
      ensures Valid() && orderBook.held == {}
      ensures var r := old(Held(o));
        && Resting() == old(Resting()).With(r.side, Place(old(Resting()).Of(r.side), r))
        && OnlyJoined(old(Sides()), Sides(), r.side)
      ensures out == old(out) + if isRecovering then [] else [Quote(Resting(), ts)]
    {
      hide OrderBook.Valid;
      orderBook.InsertOrder(o);
      PushBookUpdate(ts);
    }

    /** The swept order joins its own side, or its slot goes back to the pool; the ADD is logged only now. */
    method Finish(o: nat, ts: nat)
      requires Valid() && orderBook.held == {o} && o < |orderBook.orderPool.slots|
      requires Held(o).id !in orderBook.orderIndex && (Held(o).kind.Limit? ==> 0 <= Held(o).price < U64)
      modifies this`out, orderBook.Footprint(), wal
      ensures Valid() && orderBook.held == {}
      ensures State() == Finished(old(State()), old(Held(o)), InMode(), ts)
      ensures OnlyJoined(old(Sides()), Sides(), old(Held(o)).side)
    {
      hide OrderBook.Valid, Place, ReadAll;
      var r := Held(o);
      if r.kind.Market? || r.state.Filled? || r.state.Cancelled? {
        if !isRecovering && !inModify {
          wal.LogInput(r);
        }
        orderBook.RequestDeAllocationOfOrder(o);
      } else {
        ComeToRest(o, ts);
        if !isRecovering && !inModify {
          wal.LogInput(r);
        }
      }
    }

    /** Announces the new order, sweeps the other side with it and settles its last state. */
    method Enter(o: nat, ts: nat)
      requires Valid() && o in orderBook.held && o < |orderBook.orderPool.slots|
      requires Untouched(Held(o)) && Held(o).ts == ts && AllSound(Resting().Of(Held(o).side.Opposite()))
      modifies this`out, orderBook.Footprint(), wal
      ensures Valid() && orderBook.held == old(orderBook.held) && o < |orderBook.orderPool.slots|
      ensures Held(o) == Closing(EngineSpec.Match(old(Resting()), old(Held(o))).inc)
      ensures State() == Entered(old(State()), old(Held(o)), InMode())
      ensures OnlyLeft(old(Sides()), Sides(), old(Held(o)).side)
    {
      hide OrderBook.Valid, Sweep, ActsLog, ActsTrades, ActsEvents, OnlyLeft;
      PushDbAccept(Held(o), ts);
      Match(o, ts);
      Close(o, ts);
    }

    lemma NotIndexed(b: Book, r: OrderRec)
      requires Valid() && AllSound(b.Of(r.side.Opposite())) && !HasId(b.All(), r.id)
      requires Resting() == b.With(r.side.Opposite(), EngineSpec.Match(b, r).rest)
      ensures r.id !in orderBook.orderIndex
    {
      if HasId(Resting().All(), r.id) {
        StillFresh(b, r, r.id);
        assert false;
      }
      orderBook.Identities();
    }

    method OnNewOrder(id: nat, user: nat, side: Side, kind: OrderType, price: int, qty: int, timestamp: nat, now: nat)
      returns (ok: bool)
      requires Valid() && orderBook.held == {} && AllSound(Resting().Of(side.Opposite()))
      requires !HasId(Resting().All(), id) && (kind.Limit? ==> 0 <= price < U64)
      modifies this`out, orderBook.Footprint(), wal
      ensures Valid() && orderBook.held == {}
      ensures ok <==> !Full(old(Resting()))
      ensures var ts := if timestamp != 0 then timestamp else now;
        State() == OnNew(old(State()), Incoming(Add(id, user, side, kind, price, qty, ts)), InMode())
      ensures BothKept(old(Sides()), Sides())
    {
      hide OrderBook.Valid, Finished, Sweep, ActsLog, ActsTrades, ActsEvents, OnlyLeft, OnlyJoined, BothKept, OnNew;
      NoGapChanged(Sides());
      var ts := if timestamp != 0 then timestamp else now;
      var slot := Admit(OrderRec(id, user, side, kind, price, qty, qty, timestamp, New), ts);
      if slot.None? {
        NewOrderRefused(old(State()), Incoming(Add(id, user, side, kind, price, qty, ts)), InMode());
        return false;
      }
      var o := slot.value;
      ghost var e, r, v := old(State()), Held(o), Sides();
      Enter(o, ts);
      ghost var v' := Sides();
      SweepExit(e.book.Of(side.Opposite()), r);
      NotIndexed(e.book, r);
      Finish(o, ts);
      NewOrderSteps(e, r, InMode(), State());
      LeftThenJoined(v, v', Sides(), side);
      ok := true;
    }

    lemma Live()
      requires Valid()
      ensures BothLive(Sides(), Resting())
    {
      orderBook.LivePrices(Buy);
      orderBook.LivePrices(Sell);
    }

    /** The resting order with this id, as the specification looks it up. */
    method Seek(id: nat) returns (o: int)
      requires Valid()
      ensures o == NIL <==> Lookup(Resting(), id).None?
      ensures o != NIL ==>
        0 <= o < |orderBook.orderPool.slots| && Lookup(Resting(), id) == Some(Held(o)) && Held(o).id == id
      ensures o != NIL ==> id in orderBook.orderIndex && orderBook.orderIndex[id] == o
      ensures o != NIL ==> UniqueIds(Resting().All()) && Held(o) in Resting().Of(Held(o).side)
    {
      o := orderBook.FindOrder(id);
      hide OrderBook.Valid;
      orderBook.Identities();
      if o == NIL {
        LookupNone(Resting(), id);
      } else {
        LookupOne(Resting(), Held(o));
      }
    }

    method OnCancelOrder(id: nat, ts: nat) returns (ok: bool)
      requires Valid() && orderBook.held == {}
      modifies this`out, orderBook.Footprint(), wal
      ensures Valid() && orderBook.held == {}
      ensures ok <==> Lookup(old(Resting()), id).Some? && !Lookup(old(Resting()), id).value.state.Filled?
      ensures State() == OnCancel(old(State()), id, ts, isRecovering)
      ensures !ok ==> Sides() == old(Sides())
      ensures BothKept(old(Sides()), Sides())
    {
      hide OrderBook.Valid, CancelEvents, Lookup, ReadAll, RemoveId;
      if !isRecovering {
        wal.LogCancel(id);
      }
      var o := Seek(id);
      if o == NIL || Held(o).state.Filled? {
        return false;
      }
      Withdraw(o, Held(o).state, ts);
      ok := true;
    }

    /** Cuts quantity and remainder of a resting order by the same amount; the level's total stays behind. */
    method ReduceResting(o: nat, r: OrderRec, reduction: int, ts: nat)
      requires Valid() && orderBook.held == {} && o < |orderBook.orderPool.slots| && Held(o) == r
      requires r.id in orderBook.orderIndex && orderBook.orderIndex[r.id] == o
      modifies this`out, orderBook.Footprint()
      ensures Valid() && orderBook.held == {}
      ensures Resting() == ReducedBook(old(Resting()), r, r.qty - reduction)
      ensures out == old(out) + if isRecovering then [] else ReducedEvents(old(Resting()), r, r.qty - reduction, ts)
      ensures OneCut(old(Sides()), Sides(), r.side, r.price, reduction)
    {
      hide OrderBook.Valid, ReplaceId, RemoveId;
      Shorten(o, r, reduction);
      var r' := Held(o);
      if r'.state.Filled? {
        orderBook.RemoveOrder(o);
        PushBookUpdate(ts);
      } else {
        ReportCut(r', reduction, ts);
      }
    }

    method ReportCut(r: OrderRec, reduction: int, ts: nat)
      requires Valid()
      modifies this`out
      ensures Valid()
      ensures out == old(out) + if isRecovering then [] else
                [Quote(Resting(), ts), ModifyAck(r.id, r.user, r.rem, r.state, ts),
                 Db(DbEvent(DbKind.Modified, Stamped(r, ts), 0, -reduction, 0, 0))]
    {
      hide OrderBook.Valid;
      PushBookUpdate(ts);
      PushModifyAck(r.id, r.user, r.rem, r.state, ts);
      PushDbModify(r, ts, -reduction);
    }

    method Shorten(o: nat, r: OrderRec, reduction: int)
      requires Valid() && orderBook.held == {} && o < |orderBook.orderPool.slots| && Held(o) == r
      requires r.id in orderBook.orderIndex && orderBook.orderIndex[r.id] == o
      modifies orderBook`bids, orderBook`asks, orderBook.orderPool`slots
      ensures Valid() && o < |orderBook.orderPool.slots| && Held(o) == Shrink(r, r.qty - reduction)
      ensures Resting() ==
        old(Resting()).With(r.side, ReplaceId(old(Resting()).Of(r.side), Shrink(r, r.qty - reduction)))
      ensures RemoveId(Resting().Of(r.side), r.id) == RemoveId(old(Resting()).Of(r.side), r.id)
      ensures orderBook.View(r.side).drift == Edited(old(orderBook.View(r.side)), r, reduction).drift
      ensures orderBook.View(r.side.Opposite()) == old(orderBook.View(r.side.Opposite()))
    {
      hide OrderBook.Valid, ReplaceId, RemoveId;
      orderBook.NotHeld(o, r.id);
      var cut := r.(qty := r.qty - reduction, rem := r.rem - reduction);
      orderBook.StoreOrder(o, cut);
      UpdateOrderState(o);
      ReplaceTwice(old(Resting()).Of(r.side), cut, cut.Restated());
    }

    method OnModifyOrder(id: nat, price: int, qty: int, now: nat) returns (ok: bool)
      requires Valid() && orderBook.held == {} && !inModify && 0 <= price < U64
      requires AllSound(Resting().bids) && AllSound(Resting().asks)
      modifies this`out, this`inModify, orderBook.Footprint(), wal
      ensures Valid() && orderBook.held == {} && !inModify
      ensures State() == OnModify(old(State()), id, price, qty, now, isRecovering)
      ensures ok <==> Modifies(old(Resting()), Cmd.Modify(id, price, qty))
      ensures Follows(old(Sides()), Sides(), old(Resting()), Cmd.Modify(id, price, qty), Resting())
    {
      hide OrderBook.Valid, Revised, Lookup, Follows, BothLive;
      Live();
      StillUnknown(Sides(), Resting(), Cmd.Modify(id, price, qty));
      if !isRecovering {
        wal.LogModify(id, price, qty);
      }
      var o := Seek(id);
      if o == NIL {
        return false;
      }
      ok := Revise(o, Held(o), price, qty, now);
    }

    /** Cuts a resting order in place, or replaces it. */
    method Revise(o: nat, r: OrderRec, price: int, qty: int, now: nat) returns (ok: bool)
      requires Valid() && orderBook.held == {} && !inModify && 0 <= price < U64
      requires AllSound(Resting().bids) && AllSound(Resting().asks)
      requires o < |orderBook.orderPool.slots| && Held(o) == r && r.id in orderBook.orderIndex
      requires orderBook.orderIndex[r.id] == o
      requires Lookup(Resting(), r.id) == Some(r) && UniqueIds(Resting().All()) && r in Resting().Of(r.side)
      modifies this`out, this`inModify, orderBook.Footprint(), wal
      ensures Valid() && orderBook.held == {} && !inModify
      ensures State() == Revised(old(State()), r, price, qty, now, isRecovering)
      ensures ok <==> Modifies(old(Resting()), Cmd.Modify(r.id, price, qty))
      ensures Follows(old(Sides()), Sides(), old(Resting()), Cmd.Modify(r.id, price, qty), Resting())
    {
      hide OrderBook.Valid, ReducedBook, ReducedEvents, Replaced, Lookup, Follows, OneCut, BothThrough, BothLive;
      ghost var b, v, c := Resting(), Sides(), Cmd.Modify(r.id, price, qty);
      Live();
      if price == r.price && qty < r.qty {
        var reduction := r.qty - qty;
        if r.rem < reduction {
          StillFollows(v, b, c);
          return false;
        }
        ReduceResting(o, r, reduction, now);
        Live();
        CutFollows(v, Sides(), b, c, Resting());
        return true;
      }
      ok := Replace(r, price, qty, now);
      Live();
      if r.state.Filled? {
        StillFollows(v, b, c);
      } else {
        ThroughFollows(v, Sides(), b, c, Resting());
      }
    }

    /** Cancels the order and enters it anew under the same id. */
    method Replace(r: OrderRec, price: int, qty: int, ts: nat) returns (ok: bool)
      requires Valid() && orderBook.held == {} && !inModify && 0 <= price < U64
      requires AllSound(Resting().bids) && AllSound(Resting().asks)
      requires Lookup(Resting(), r.id) == Some(r) && UniqueIds(Resting().All()) && r in Resting().Of(r.side)
      modifies this`out, this`inModify, orderBook.Footprint(), wal
      ensures Valid() && orderBook.held == {} && !inModify
      ensures State() == Replaced(old(State()), r, price, qty, ts, isRecovering)
      ensures ok <==> !r.state.Filled? && !Full(Without(old(Resting()), r))
      ensures r.state.Filled? ==> Sides() == old(Sides())
      ensures !r.state.Filled? ==> BothThrough(old(Sides()), Without(old(Resting()), r), Sides())
    {
      hide OrderBook.Valid, NewBook, NewEvents, Sweep, Lookup, CancelEvents, BothKept, BothThrough, BothLive;
      ghost var b := Resting();
      ok := OnCancelOrder(r.id, ts);
      if !ok {
        return;
      }
      ghost var v := Sides();
      Live();
      RemoveKeepsSound(b.Of(r.side), r.id);
      GoneAfterRemoval(b, r);
      LookupNone(Resting(), r.id);
      inModify := true;
      ok := OnNewOrder(r.id, r.user, r.side, r.kind, price, qty, ts, ts);
      inModify := false;
      KeptThrough(old(Sides()), v, Sides(), Without(b, r));
      ReportPlaced(r.id, ok, ts);
    }

    method ReportPlaced(id: nat, success: bool, ts: nat)
      requires Valid() && (!success ==> Lookup(Resting(), id).None?)
      modifies this`out
      ensures Valid() && out == old(out) + if isRecovering then [] else PlacedEvents(Resting(), id, ts)
    {
      hide OrderBook.Valid, Lookup;
      if success {
        var o := Seek(id);
        if o != NIL {
          var placed := Held(o);
          PushModifyAck(id, placed.user, placed.rem, placed.state, ts);
          PushDbModify(placed, ts, placed.rem);
        }
      }
    }

    /** One request, as the dispatcher and replay hand it over. */
    method Serve(q: Request)
      requires Valid() && orderBook.held == {} && !inModify && Accepts(Resting(), q.cmd)
      modifies this`out, this`inModify, orderBook.Footprint(), wal
      ensures Valid() && orderBook.held == {} && !inModify
      ensures State() == Step(old(State()), q, isRecovering)
      ensures Follows(old(Sides()), Sides(), old(Resting()), q.cmd, Resting())
    {
      hide OrderBook.Valid, Follows, BothKept, BothLive;
      ghost var b, v := Resting(), Sides();
      Live();
      if q.cmd.Modify? {
        var _ := OnModifyOrder(q.cmd.id, q.cmd.price, q.cmd.qty, q.now);
      } else {
        if q.cmd.Cancel? {
          var _ := OnCancelOrder(q.cmd.id, q.now);
        } else {
          var _ := OnNewOrder(q.cmd.id, q.cmd.user, q.cmd.side, q.cmd.kind, q.cmd.price, q.cmd.qty, q.cmd.ts, q.now);
        }
        Live();
        KeptFollows(v, Sides(), b, q.cmd, Resting());
      }
    }

    /** A whole run of requests: the state is the run's, and every level's kept total is the sum over its
        orders plus the cuts that the run has made there. */
    method ServeAll(qs: seq<Request>)
      requires Valid() && orderBook.held == {} && !inModify && !isRecovering && Ready(State(), qs, false)
      modifies this`out, this`inModify, orderBook.Footprint(), wal
      ensures Valid() && orderBook.held == {} && !inModify && !isRecovering
      ensures State() == Run(old(State()), qs, false)
      ensures Totals(Buy, old(orderBook.bids), old(State()), qs, false)
      ensures Totals(Sell, old(orderBook.asks), old(State()), qs, false)
    {
      hide OrderBook.Valid, Step, Accepts, GapsFollow, Counted;
      ghost var e, bids, asks := State(), orderBook.bids, orderBook.asks;
      CountedStart(bids, e, false, Buy);
      CountedStart(asks, e, false, Sell);
      var i := 0;
      while i < |qs|
        invariant Valid() && orderBook.held == {} && !inModify && !isRecovering && 0 <= i <= |qs|
        invariant Ready(e, qs[..i], false) && State() == Run(e, qs[..i], false)
        invariant Counted(bids, orderBook.bids, e, qs[..i], false, Buy)
        invariant Counted(asks, orderBook.asks, e, qs[..i], false, Sell)
      {
        ReadyPrefix(e, qs, i, false);
        RunStep(e, qs[..i], qs[i], false);
        ghost var bids', asks' := orderBook.bids, orderBook.asks;
        Serve(qs[i]);
        CountedNext(bids, bids', orderBook.bids, e, qs[..i], qs[i], false, Buy);
        CountedNext(asks, asks', orderBook.asks, e, qs[..i], qs[i], false, Sell);
        assert qs[..i + 1] == qs[..i] + [qs[i]];
        i := i + 1;
      }
      assert qs[..i] == qs;
      CountedTotals(Buy, bids, e, qs, false);
      CountedTotals(Sell, asks, e, qs, false);
    }

    /** Each level's kept total is the sum of its orders' remainders, plus the run's cuts at its price. */
    ghost predicate Totals(side: Side, w: SideView, e: Engine, qs: seq<Request>, quiet: bool)
      requires Ready(e, qs, quiet)
      reads orderBook, orderBook.levelPool, orderBook.buyBook, orderBook.sellBook
    {
      forall p :: p in orderBook.Tree(side).levels ==>
        var l := orderBook.Tree(side).levels[p];
        l < |orderBook.levelPool.slots| &&
        orderBook.levelPool.slots[l].aggregated ==
          Open(AtPrice(Resting().Of(side), p)) + Cuts(e, qs, quiet, side, p, Gap(w, p))
    }

    ghost predicate TotalsAre(side: Side, qs: seq<Request>)
      requires Ready(EMPTY, qs, false)
      reads orderBook, orderBook.levelPool, orderBook.buyBook, orderBook.sellBook
    {
      forall p :: p in orderBook.Tree(side).levels ==>
        var l := orderBook.Tree(side).levels[p];
        l < |orderBook.levelPool.slots| &&
        orderBook.levelPool.slots[l].aggregated ==
        Open(AtPrice(Resting().Of(side), p)) + Cuts(EMPTY, qs, false, side, p, 0)
    }

    ghost predicate TotalsSum(side: Side)
      reads orderBook, orderBook.levelPool, orderBook.buyBook, orderBook.sellBook
    {
      forall p :: p in orderBook.Tree(side).levels ==>
        var l := orderBook.Tree(side).levels[p];
        l < |orderBook.levelPool.slots| &&
        orderBook.levelPool.slots[l].aggregated == Open(AtPrice(Resting().Of(side), p))
    }

    lemma TotalsFresh(side: Side, w: SideView, qs: seq<Request>)
      requires Ready(EMPTY, qs, false) && Totals(side, w, EMPTY, qs, false) && forall p :: Gap(w, p) == 0
      ensures TotalsAre(side, qs)
      ensures Uncut(EMPTY, qs, false) ==> TotalsSum(side)
    {
      hide Cuts, Gap, AtPrice;
      if Uncut(EMPTY, qs, false) {
        forall p ensures Cuts(EMPTY, qs, false, side, p, 0) == 0 {
          UncutLevel(EMPTY, qs, false, side, p);
        }
      }
    }

    lemma CountedTotals(side: Side, w: SideView, e: Engine, qs: seq<Request>, quiet: bool)
      requires Valid() && Ready(e, qs, quiet) && Counted(w, orderBook.View(side), e, qs, quiet, side)
      ensures Totals(side, w, e, qs, quiet)
    {
      hide OrderBook.Valid, Cuts;
      forall p | p in orderBook.Tree(side).levels
        ensures var l := orderBook.Tree(side).levels[p];
          l < |orderBook.levelPool.slots| &&
          orderBook.levelPool.slots[l].aggregated ==
            Open(AtPrice(Resting().Of(side), p)) + Cuts(e, qs, quiet, side, p, Gap(w, p))
      {
        orderBook.LevelTotal(side, p);
        assert Gap(orderBook.View(side), p) == Cuts(e, qs, quiet, side, p, Gap(w, p));
      }
    }

    /** Replays the log record by record, quietly. */
    method Recover(clock: seq<nat>)
      requires Valid() && orderBook.held == {} && !inModify && Resting() == EMPTY.book
      requires orderBook.bids.drift == map[] && orderBook.asks.drift == map[] && out == [] && wal.trades == []
      requires |clock| == |wal.entries| && Ready(EMPTY, Requests(wal.entries, clock), true)
      modifies this`out, this`inModify, this`isRecovering, orderBook.Footprint(), wal
      ensures Valid() && orderBook.held == {} && !inModify && !isRecovering
      ensures Restored(old(wal.entries), clock)
    {
      hide OrderBook.Valid, Ready, Run, Step, Accepts, Requests, ReadAll, Reads, GapsFollow, Counted, CountedFresh;
      isRecovering := true;
      var log, i := wal.entries, 0;
      ghost var e0, bids, asks := State(), orderBook.bids, orderBook.asks;
      ReplayEnds(e0, log, clock);
      CountedStart(bids, EMPTY, true, Buy);
      CountedStart(asks, EMPTY, true, Sell);
      while i < |log|
        invariant Valid() && orderBook.held == {} && isRecovering && !inModify && 0 <= i <= |log|
        invariant Ready(EMPTY, Requests(log[..i], clock[..i]), true)
        invariant State() == e0.(book := Run(EMPTY, Requests(log[..i], clock[..i]), true).book)
        invariant Counted(bids, orderBook.bids, EMPTY, Requests(log[..i], clock[..i]), true, Buy)
        invariant Counted(asks, orderBook.asks, EMPTY, Requests(log[..i], clock[..i]), true, Sell)
      {
        ReplayStep(e0, log, clock, i);
        ghost var bids', asks' := orderBook.bids, orderBook.asks;
        Visit(log[i], clock[i]);
        CountedReplay(bids, bids', orderBook.bids, log, clock, i, Buy);
        CountedReplay(asks, asks', orderBook.asks, log, clock, i, Sell);
        i := i + 1;
      }
      isRecovering := false;
      assert log[..i] == log && clock[..i] == clock;
      FreshCount(bids, orderBook.bids, EMPTY, Requests(log, clock), true, Buy);
      FreshCount(asks, orderBook.asks, EMPTY, Requests(log, clock), true, Sell);
    }

    method Visit(entry: LogEntry, now: nat)
      requires Valid() && orderBook.held == {} && isRecovering && !inModify
      requires !entry.action.TRADE? ==> Accepts(Resting(), Reads(entry)[0])
      modifies this`out, this`inModify, orderBook.Footprint(), wal
      ensures Valid() && orderBook.held == {} && !inModify
      ensures State() ==
        if entry.action.TRADE? then old(State()) else Step(old(State()), Request(Reads(entry)[0], now), true)
      ensures entry.action.TRADE? ==> Sides() == old(Sides())
      ensures !entry.action.TRADE? ==>
        Follows(old(Sides()), Sides(), old(Resting()), Reads(entry)[0], Resting())
    {
      hide OrderBook.Valid, Follows;
      match entry.action
      case ADD =>
        Serve(Request(Add(entry.id, entry.user, entry.side, entry.kind, entry.price, entry.qty, entry.ts), now));
      case CANCEL =>
        Serve(Request(Cmd.Cancel(entry.id), now));
      case MODIFY =>
        Serve(Request(Cmd.Modify(entry.id, entry.price, entry.qty), now));
      case TRADE =>
    }
  }

  /** A new engine over an empty log serves a lawful run: every level's kept total is the sum over its
      orders plus the cuts made there since it was created, and just the sum if the run makes no cuts. */
  method ServeLawful(qs: seq<Request>) returns (m: MatchingEngine)
    requires BookInvariants.Lawful(qs)
    ensures Ready(EMPTY, qs, false) && m.Valid() && m.State() == Run(EMPTY, qs, false)
    ensures m.TotalsAre(Buy, qs) && m.TotalsAre(Sell, qs)
    ensures Uncut(EMPTY, qs, false) ==> m.TotalsSum(Buy) && m.TotalsSum(Sell)
  {
    hide Ready, Run, Cuts, Uncut;
    BookInvariants.RunInv(qs, false);
    NoRequests();
    m := new MatchingEngine([], []);
    ghost var bids, asks := m.orderBook.bids, m.orderBook.asks;
    m.ServeAll(qs);
    m.TotalsFresh(Buy, bids, qs);
    m.TotalsFresh(Sell, asks, qs);
  }

  lemma NoRequests()
    ensures Requests([], []) == [] && Ready(EMPTY, [], true) && Run(EMPTY, [], true) == EMPTY && ReadAll([]) == []
    ensures forall side, p :: Cuts(EMPTY, [], true, side, p, 0) == 0
  {
  }

  /** The requests that replay makes of the log, each handled at its own reading of the clock. */
  function Requests(entries: seq<LogEntry>, clock: seq<nat>): seq<Request>
    requires |clock| == |entries|
  {
    if entries == [] then []
    else
      var n := |entries| - 1;
      Requests(entries[..n], clock[..n]) +
      (if entries[n].action.TRADE? then [] else [Request(Reads(entries[n])[0], clock[n])])
  }

  lemma {:induction false} RequestsPrefix(log: seq<LogEntry>, clock: seq<nat>, i: nat)
    requires |clock| == |log| && i <= |log|
    ensures Requests(log[..i], clock[..i]) <= Requests(log, clock)
  {
    if i == |log| {
      assert log[..i] == log && clock[..i] == clock;
    } else {
      var n := |log| - 1;
      RequestsPrefix(log[..n], clock[..n], i);
      assert log[..n][..i] == log[..i] && clock[..n][..i] == clock[..i];
    }
  }

  lemma ReplayEnds(e: Engine, log: seq<LogEntry>, clock: seq<nat>)
    requires |clock| == |log|
    ensures Requests(log[..0], clock[..0]) == [] && log[..|log|] == log && clock[..|log|] == clock
    ensures Ready(EMPTY, [], true) && Run(EMPTY, [], true) == EMPTY
  {
  }

  lemma NextRequest(log: seq<LogEntry>, clock: seq<nat>, i: nat)
    requires |clock| == |log| && i < |log|
    ensures Requests(log[..i + 1], clock[..i + 1]) == Requests(log[..i], clock[..i]) +
      (if log[i].action.TRADE? then [] else [Request(Reads(log[i])[0], clock[i])])
    ensures Requests(log[..i + 1], clock[..i + 1]) <= Requests(log, clock)
  {
    RequestsPrefix(log, clock, i + 1);
    assert log[..i + 1][..i] == log[..i] && clock[..i + 1][..i] == clock[..i];
  }

  lemma ReplayStep(e: Engine, log: seq<LogEntry>, clock: seq<nat>, i: nat)
    requires |clock| == |log| && i < |log| && Ready(EMPTY, Requests(log, clock), true)
    requires Ready(EMPTY, Requests(log[..i], clock[..i]), true)
    ensures Ready(EMPTY, Requests(log[..i + 1], clock[..i + 1]), true)
    ensures var now := e.(book := Run(EMPTY, Requests(log[..i], clock[..i]), true).book);
      var next := e.(book := Run(EMPTY, Requests(log[..i + 1], clock[..i + 1]), true).book);
      if log[i].action.TRADE? then next == now
      else Accepts(now.book, Reads(log[i])[0]) && Step(now, Request(Reads(log[i])[0], clock[i]), true) == next
  {
    hide Step, Accepts, Requests, Ready, Run;
    NextRequest(log, clock, i);
    assert Requests(log[..i], clock[..i]) + [] == Requests(log[..i], clock[..i]);
    if !log[i].action.TRADE? {
      QuietNext(e, EMPTY, Requests(log[..i], clock[..i]), Request(Reads(log[i])[0], clock[i]), Requests(log, clock));
    }
  }

  lemma CountedReplay(w: SideView, v: SideView, v': SideView, log: seq<LogEntry>, clock: seq<nat>, i: nat, side: Side)
    requires |clock| == |log| && i < |log|
    requires Ready(EMPTY, Requests(log[..i], clock[..i]), true)
    requires Ready(EMPTY, Requests(log[..i + 1], clock[..i + 1]), true)
    requires Counted(w, v, EMPTY, Requests(log[..i], clock[..i]), true, side)
    requires log[i].action.TRADE? ==> v' == v
    requires !log[i].action.TRADE? ==>
      GapsFollow(v, v', Run(EMPTY, Requests(log[..i], clock[..i]), true).book, Reads(log[i])[0],
                 Run(EMPTY, Requests(log[..i + 1], clock[..i + 1]), true).book, side)
    ensures Counted(w, v', EMPTY, Requests(log[..i + 1], clock[..i + 1]), true, side)
  {
    hide Requests, Ready, Run, GapsFollow, Counted;
    NextRequest(log, clock, i);
    assert Requests(log[..i], clock[..i]) + [] == Requests(log[..i], clock[..i]);
    if !log[i].action.TRADE? {
      CountedNext(w, v, v', EMPTY, Requests(log[..i], clock[..i]), Request(Reads(log[i])[0], clock[i]), true, side);
    }
  }

  /** The incoming order's own side is untouched, and levels that remain opposite keep their gaps. */
  ghost predicate OnlyLeft(v: Views, v': Views, side: Side) {
    if side.Buy? then v'.bids == v.bids && DriftKept(v.asks, v'.asks)
    else v'.asks == v.asks && DriftKept(v.bids, v'.bids)
  }

  lemma LeftSelf(v: Views, side: Side)
    ensures OnlyLeft(v, v, side)
  {
  }

  lemma LeftAlong(v: Views, v': Views, v'': Views, side: Side)
    requires OnlyLeft(v, v', side) && OnlyLeft(v', v'', side)
    ensures OnlyLeft(v, v'', side)
  {
  }

  ghost predicate OnlyJoined(v: Views, v': Views, side: Side) {
    if side.Buy? then v'.asks == v.asks && GapsKept(v.bids, v'.bids) else v'.bids == v.bids && GapsKept(v.asks, v'.asks)
  }

  lemma NoGapChanged(v: Views)
    ensures BothKept(v, v)
  {
  }

  lemma LeftThenJoined(v: Views, v': Views, v'': Views, side: Side)
    requires OnlyLeft(v, v', side) && OnlyJoined(v', v'', side)
    ensures BothKept(v, v'')
  {
  }

  /** Two edits of the front order, then its removal. */
  lemma FrontRewrites(s: seq<OrderRec>, r1: OrderRec, r2: OrderRec)
    requires s != [] && UniqueIds(s) && r1.id == r2.id == s[0].id
    ensures ReplaceId(s, r1) == [r1] + s[1..]
    ensures ReplaceId(ReplaceId(s, r1), r2) == [r2] + s[1..]
    ensures RemoveId([r2] + s[1..], r2.id) == s[1..]
  {
    FrontEdits(s, r1);
    FrontEdits([r1] + s[1..], r2);
    FrontEdits([r2] + s[1..], r2);
  }

  lemma FillTurn(e: Engine, inc: OrderRec, r: OrderRec, inc': OrderRec, e': Engine, quiet: bool, ts: nat)
    requires e.book.Of(inc.side.Opposite()) != []
    requires var s := e.book.Of(inc.side.Opposite()); var traded := Min(inc.rem, s[0].rem);
      && s[0].user != inc.user
      && r == Reduced(s[0], traded) && inc' == Reduced(inc, traded)
      && e'.book.Of(inc.side.Opposite()) == (if r.state.Filled? then [] else [r]) + s[1..]
      && e'.book.Of(inc.side) == e.book.Of(inc.side)
      && e'.log == e.log
      && e'.trades == e.trades + (if quiet then [] else [TradeLine(inc.id, r.id, r.price, traded)])
      && e'.out == e.out + (if quiet then [] else
           ActEvents(Fill(inc', r, traded, Front(e'.book.Of(inc.side.Opposite()))), inc.side,
                     Front(e'.book.Of(inc.side)), ts))
    ensures inc' == IncAfter(e.book.Of(inc.side.Opposite()), inc)
    ensures e' == Turned(e, inc, quiet, ts)
  {
    hide ActEvents;
    var s := e.book.Of(inc.side.Opposite());
    var a := ActOf(s, inc);
    assert [a][..0] == [];
    assert ActsLog([a]) == [];
    assert ActsTrades([a]) == [TradeLine(inc.id, r.id, r.price, a.qty)];
  }

  /** What one turn of the match loop does to everything but the incoming order. */
  ghost function Turned(e: Engine, inc: OrderRec, quiet: bool, ts: nat): Engine
    requires e.book.Of(inc.side.Opposite()) != []
  {
    var s := e.book.Of(inc.side.Opposite());
    var a := ActOf(s, inc);
    var book := e.book.With(inc.side.Opposite(), RestAfter(s, inc));
    if quiet then e.(book := book)
    else Engine(book, e.log + ActsLog([a]), e.trades + ActsTrades([a]),
                e.out + ActEvents(a, inc.side, Front(e.book.Of(inc.side)), ts))
  }

  /** Everything after the acts of a match on e, with s left on the opposite side. */
  ghost function Matched(e: Engine, side: Side, acts: seq<Act>, s: seq<OrderRec>, quiet: bool, ts: nat): Engine {
    var book := e.book.With(side.Opposite(), s);
    if quiet then e.(book := book)
    else Engine(book, e.log + ActsLog(acts), e.trades + ActsTrades(acts),
                e.out + ActsEvents(acts, side, Front(e.book.Of(side)), ts))
  }

  /** After acts, what is left of the sweep completes the sweep that was begun. */
  ghost predicate Underway(e0: Engine, inc0: OrderRec, acts: seq<Act>, e: Engine, inc: OrderRec, quiet: bool, ts: nat) {
    var s0, s := e0.book.Of(inc0.side.Opposite()), e.book.Of(inc0.side.Opposite());
    && AllSound(s0) && AllSound(s) && inc.side == inc0.side
    && Sweep(s0, inc0) == Swept(Sweep(s, inc).rest, Sweep(s, inc).inc, acts + Sweep(s, inc).acts)
    && e == Matched(e0, inc0.side, acts, s, quiet, ts)
  }

  lemma UnderwayStart(e: Engine, inc: OrderRec, quiet: bool, ts: nat)
    requires AllSound(e.book.Of(inc.side.Opposite()))
    ensures Underway(e, inc, [], e, inc, quiet, ts)
  {
    var s := e.book.Of(inc.side.Opposite());
    assert [] + Sweep(s, inc).acts == Sweep(s, inc).acts;
    assert e.log + [] == e.log && e.trades + [] == e.trades && e.out + [] == e.out;
  }

  lemma MatchedBook(e0: Engine, side: Side, acts: seq<Act>, s: seq<OrderRec>, quiet: bool, ts: nat)
    ensures Matched(e0, side, acts, s, quiet, ts).book.Of(side.Opposite()) == s
  {
  }

  /** One more turn adds its act's log record, trade line and events. */
  lemma MatchedMore(e0: Engine, inc: OrderRec, acts: seq<Act>, s: seq<OrderRec>, quiet: bool, ts: nat)
    requires s != []
    ensures var e := Matched(e0, inc.side, acts, s, quiet, ts);
      && e.book.Of(inc.side.Opposite()) == s
      && Turned(e, inc, quiet, ts) == Matched(e0, inc.side, acts + [ActOf(s, inc)], RestAfter(s, inc), quiet, ts)
  {
    hide ActOf, RestAfter, ActEvents;
    var a, acts', side, own := ActOf(s, inc), acts + [ActOf(s, inc)], inc.side, Front(e0.book.Of(inc.side));
    assert acts'[..|acts|] == acts && [a][..0] == [];
    assert ActsLog(acts') == ActsLog(acts) + ActsLog([a]);
    assert ActsTrades(acts') == ActsTrades(acts) + ActsTrades([a]);
    assert e0.log + ActsLog(acts) + ActsLog([a]) == e0.log + ActsLog(acts');
    assert e0.trades + ActsTrades(acts) + ActsTrades([a]) == e0.trades + ActsTrades(acts');
    assert e0.out + ActsEvents(acts, side, own, ts) + ActEvents(a, side, own, ts) ==
      e0.out + ActsEvents(acts', side, own, ts);
  }

  lemma UnderwayStep(e0: Engine, inc0: OrderRec, acts: seq<Act>, e: Engine, inc: OrderRec, quiet: bool, ts: nat)
    requires Underway(e0, inc0, acts, e, inc, quiet, ts) && !Stops(e.book.Of(inc.side.Opposite()), inc)
    ensures var s := e.book.Of(inc.side.Opposite());
      && Underway(e0, inc0, acts + [ActOf(s, inc)], Turned(e, inc, quiet, ts), IncAfter(s, inc), quiet, ts)
      && AllSound(RestAfter(s, inc)) && Turned(e, inc, quiet, ts).book.Of(inc.side.Opposite()) == RestAfter(s, inc)
      && IncAfter(s, inc).side == inc.side && 0 <= IncAfter(s, inc).rem <= inc.rem
      && (IncAfter(s, inc).rem < inc.rem || |RestAfter(s, inc)| < |s|)
  {
    hide ActOf, RestAfter, Matched, Turned;
    var s := e.book.Of(inc.side.Opposite());
    Progress(s, inc);
    var s', inc' := RestAfter(s, inc), IncAfter(s, inc);
    MatchedMore(e0, inc, acts, s, quiet, ts);
    MatchedBook(e0, inc.side, acts + [ActOf(s, inc)], s', quiet, ts);
    assert acts + Sweep(s, inc).acts == acts + [ActOf(s, inc)] + Sweep(s', inc').acts;
  }

  lemma UnderwayEnd(e0: Engine, inc0: OrderRec, acts: seq<Act>, e: Engine, inc: OrderRec, quiet: bool, ts: nat)
    requires Underway(e0, inc0, acts, e, inc, quiet, ts) && Stops(e.book.Of(inc.side.Opposite()), inc)
    ensures var m := EngineSpec.Match(e0.book, inc0);
      inc == m.inc && e == Matched(e0, inc0.side, m.acts, m.rest, quiet, ts)
  {
    assert acts + [] == acts;
  }

  /** Everything after a closed order came to rest or left. */
  ghost function Finished(e: Engine, r: OrderRec, mode: Mode, ts: nat): Engine {
    var book := if Rests(r) then e.book.With(r.side, Place(e.book.Of(r.side), r)) else e.book;
    e.(book := book,
       log := e.log + (if mode.quiet || mode.replacing then [] else [AddOf(r)]),
       out := e.out + (if mode.quiet || !Rests(r) then [] else [Quote(book, ts)]))
  }

  /** A match brings no id into the book. */
  lemma StillFresh(b: Book, r: OrderRec, id: nat)
    requires AllSound(b.Of(r.side.Opposite()))
    requires HasId(b.With(r.side.Opposite(), EngineSpec.Match(b, r).rest).All(), id)
    ensures HasId(b.All(), id)
  {
    var s, t := b.Of(r.side.Opposite()), EngineSpec.Match(b, r).rest;
    var own, b' := b.Of(r.side), b.With(r.side.Opposite(), t);
    HasIdEither(b', id);
    HasIdEither(b, id);
    if HasId(t, id) {
      SweepIds(s, r, id);
    }
    assert HasId(own, id) || HasId(s, id);
  }

  /** Everything after a new order was announced, matched and closed, but has not come to rest. */
  ghost function Entered(e: Engine, r: OrderRec, mode: Mode): Engine
    requires AllSound(e.book.Of(r.side.Opposite()))
  {
    var m := EngineSpec.Match(e.book, r);
    var final := Closing(m.inc);
    var accepted := if mode.quiet || mode.replacing then [] else [DbPlain(DbKind.Accepted, r, r.ts)];
    var swept := Matched(e.(out := e.out + accepted), r.side, m.acts, m.rest, mode.quiet, r.ts);
    swept.(out := swept.out + if mode.quiet || !final.state.Cancelled? then []
                              else [CancelAck(final.id, final.user, final.rem, final.state, r.ts)])
  }

  /** Entering and finishing compose to what the specification says of a new order. */
  lemma NewOrderSteps(e: Engine, r: OrderRec, mode: Mode, e': Engine)
    requires AllSound(e.book.Of(r.side.Opposite())) && !Full(e.book) && Untouched(r)
    requires e' == Finished(Entered(e, r, mode), Closing(EngineSpec.Match(e.book, r).inc), mode, r.ts)
    ensures e' == OnNew(e, r, mode)
  {
    hide Sweep, ActsEvents, ActsLog, ActsTrades;
    var m := EngineSpec.Match(e.book, r);
    SweepExit(e.book.Of(r.side.Opposite()), r);
    assert e'.book == NewBook(e.book, r);
    assert AddOf(Closing(m.inc)) == AddOf(r);
    if !mode.quiet {
      assert e'.out == e.out + NewEvents(e.book, r, mode.replacing);
    }
  }

  lemma NewOrderRefused(e: Engine, r: OrderRec, mode: Mode)
    requires AllSound(e.book.Of(r.side.Opposite())) && Full(e.book)
    ensures OnNew(e, r, mode) == e
  {
  }

  lemma ReplaceTwice(s: seq<OrderRec>, r1: OrderRec, r2: OrderRec)
    requires r1.id == r2.id
    ensures ReplaceId(ReplaceId(s, r1), r2) == ReplaceId(s, r2)
    ensures RemoveId(ReplaceId(s, r2), r2.id) == RemoveId(s, r2.id)
  {
  }

  lemma GoneAfterRemoval(b: Book, r: OrderRec)
    requires UniqueIds(b.All()) && r in b.Of(r.side)
    ensures !HasId(Without(b, r).All(), r.id)
  {
    var b' := Without(b, r);
    var i :| 0 <= i < |b.Of(r.side)| && b.Of(r.side)[i] == r;
    HasIdEither(b', r.id);
    var k := if r.side.Buy? then i else |b.bids| + i;
    assert b.All()[k] == r;
    NoneLeft(b.Of(r.side), r.id);
    var other := b.Of(r.side.Opposite());
    forall j | 0 <= j < |other| ensures other[j].id != r.id {
      assert b.All()[if r.side.Buy? then |b.bids| + j else j] == other[j];
    }
  }

  lemma {:induction false} NoneLeft(s: seq<OrderRec>, id: nat)
    ensures !HasId(RemoveId(s, id), id)
  {
    if s != [] {
      NoneLeft(s[1..], id);
      var t := RemoveId(s, id);
      forall i | 0 <= i < |t| ensures t[i].id != id {
        if s[0].id != id && i > 0 {
          assert t[i] == RemoveId(s[1..], id)[i - 1];
        }
      }
    }
  }

  lemma SelfCancelTurn(e: Engine, inc: OrderRec, e': Engine, quiet: bool, ts: nat)
    requires e.book.Of(inc.side.Opposite()) != []
    requires var s := e.book.Of(inc.side.Opposite()); var r := s[0];
      && r.user == inc.user && r.side == inc.side.Opposite() && RemoveId(s, r.id) == s[1..]
      && e'.book == Without(e.book, r)
      && e'.log == e.log + (if quiet then [] else [Cmd.Cancel(r.id)])
      && e'.trades == e.trades
      && e'.out == e.out + (if quiet then [] else CancelEvents(e.book, r.(state := OrderState.Cancelled), ts))
    ensures e' == Turned(e, inc, quiet, ts)
  {
    var s := e.book.Of(inc.side.Opposite());
    var a := ActOf(s, inc);
    assert [a][..0] == [];
    assert ActsLog([a]) == [Cmd.Cancel(s[0].id)];
    assert ActsTrades([a]) == [];
    if !quiet {
      assert e'.out == e.out + ActEvents(a, inc.side, Front(e.book.Of(inc.side)), ts);
    }
  }

  lemma {:induction false} RequestsMatch(log: seq<LogEntry>, clock: seq<nat>)
    requires |clock| == |log|
    ensures Matches(Requests(log, clock), ReadAll(log))
  {
    if log != [] {
      var n := |log| - 1;
      RequestsMatch(log[..n], clock[..n]);
    }
  }

  /** An engine that starts from a log which rebuilds a book starts with that book, whatever the clock. */
  lemma RestartKeepsBook(log: seq<LogEntry>, clock: seq<nat>, b: Book)
    requires |clock| == |log| && Rebuilds(ReadAll(log), b)
    ensures Ready(EMPTY, Requests(log, clock), true)
    ensures Run(EMPTY, Requests(log, clock), true).book == b
  {
    RequestsMatch(log, clock);
  }
}
