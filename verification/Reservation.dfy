/**
 What is blocked covers what is open: after every request, once its events are settled, each slot's
 blocked funds and shares are its resting orders' reservations plus an exactly known surplus.
 */
module Reservations {
  import opened CoreTypes
  import opened PriceTime
  import opened Sweeps
  import opened EngineSpec
  import opened Runs
  import opened BookInvariants
  import opened Recoveries
  import opened EventViews
  import opened Balances
  import opened DbWriters
  import opened Costs

  /** One slot's funds, and its shares of the symbol. */
  datatype Purse = Purse(cash: Account, shares: Account) {
    function Of(side: Side): Account {
      if side.Buy? then cash else shares
    }

    function With(side: Side, a: Account): Purse {
      if side.Buy? then this.(cash := a) else this.(shares := a)
    }
  }

  /** What an order's open part calls for: its price in funds, or itself in shares. */
  function Due(r: OrderRec): int {
    if r.side.Buy? then r.price * r.rem else r.rem
  }

  function DueAt(r: OrderRec, k: nat): int {
    if SlotOf(r.user) == k then Due(r) else 0
  }

  function Reserved(s: seq<OrderRec>, k: nat): int {
    if s == [] then 0 else DueAt(s[0], k) + Reserved(s[1..], k)
  }

  function ApplyEvent(p: Purse, k: nat, ev: Event): Purse {
    if ev.Db? then Purse(ApplyFunds(p.cash, k, ev.event), ApplyShares(p.shares, k, ev.event)) else p
  }

  /** The writer's fold over everything the engine emits. */
  function Settle(p: Purse, k: nat, es: seq<Event>): Purse {
    if es == [] then p else ApplyEvent(Settle(p, k, es[..|es| - 1]), k, es[|es| - 1])
  }

  lemma {:induction false} SettleAppend(p: Purse, k: nat, a: seq<Event>, b: seq<Event>)
    ensures Settle(p, k, a + b) == Settle(Settle(p, k, a), k, b)
  {
    if b == [] {
      assert a + b == a;
    } else {
      SettleAppend(p, k, a, b[..|b| - 1]);
      assert (a + b)[..|a + b| - 1] == a + b[..|b| - 1];
    }
  }

  /** Only the database events of a list count. */
  lemma {:induction false} SettleNone(p: Purse, k: nat, es: seq<Event>)
    requires forall i :: 0 <= i < |es| ==> !es[i].Db?
    ensures Settle(p, k, es) == p
  {
    if es != [] {
      SettleNone(p, k, es[..|es| - 1]);
    }
  }

  lemma SettleOne(p: Purse, k: nat, ev: Event)
    ensures Settle(p, k, [ev]) == ApplyEvent(p, k, ev)
  {
    assert [ev][..0] == [];
  }

  // ----- reservations under each edit of a side

  lemma {:induction false} ReservedPlaced(s: seq<OrderRec>, r: OrderRec, k: nat)
    ensures Reserved(Place(s, r), k) == Reserved(s, k) + DueAt(r, k)
  {
    if s == [] || !Ahead(r.side, s[0].price, r.price) {
      assert ([r] + s)[1..] == s;
    } else {
      ReservedPlaced(s[1..], r, k);
      assert ([s[0]] + Place(s[1..], r))[1..] == Place(s[1..], r);
    }
  }

  lemma {:induction false} ReservedRemoved(s: seq<OrderRec>, r: OrderRec, k: nat)
    requires UniqueIds(s) && r in s
    ensures Reserved(RemoveId(s, r.id), k) == Reserved(s, k) - DueAt(r, k)
  {
    if s[0] == r {
      RemoveAbsent(s[1..], r.id);
    } else {
      assert s[0].id != r.id by {
        var i :| 0 <= i < |s| && s[i] == r;
      }
      assert r in s[1..] by {
        assert s == [s[0]] + s[1..];
      }
      ReservedRemoved(s[1..], r, k);
      assert ([s[0]] + RemoveId(s[1..], r.id))[1..] == RemoveId(s[1..], r.id);
    }
  }

  lemma {:induction false} ReservedReplaced(s: seq<OrderRec>, r: OrderRec, r': OrderRec, k: nat)
    requires UniqueIds(s) && r in s && r'.id == r.id
    ensures Reserved(ReplaceId(s, r'), k) == Reserved(s, k) - DueAt(r, k) + DueAt(r', k)
  {
    if s[0] == r {
      ReplaceAbsent(s[1..], r');
      assert ([r'] + s[1..])[1..] == s[1..];
    } else {
      assert s[0].id != r.id by {
        var i :| 0 <= i < |s| && s[i] == r;
      }
      assert r in s[1..] by {
        assert s == [s[0]] + s[1..];
      }
      ReservedReplaced(s[1..], r, r', k);
      assert ([s[0]] + ReplaceId(s[1..], r'))[1..] == ReplaceId(s[1..], r');
    }
  }

  lemma DuePositive(side: Side, r: OrderRec, k: nat)
    requires WellKept(side, r)
    ensures Due(r) >= 0 && DueAt(r, k) >= 0
  {
  }

  lemma {:induction false} ReservedPositive(side: Side, s: seq<OrderRec>, k: nat)
    requires forall i :: 0 <= i < |s| ==> WellKept(side, s[i])
    ensures Reserved(s, k) >= 0
  {
    if s != [] {
      ReservedPositive(side, s[1..], k);
      DuePositive(side, s[0], k);
    }
  }

  // ----- the acts of a match

  /** What a fill saves the aggressing buyer, and nobody else, against its own limit. */
  function SavedBy(a: Act, k: nat): int {
    if a.Fill? && a.aggressor.side.Buy? && SlotOf(a.aggressor.user) == k
    then (a.aggressor.price - a.resting.price) * a.qty else 0
  }

  function Saved(acts: seq<Act>, k: nat): int {
    if acts == [] then 0 else SavedBy(acts[0], k) + Saved(acts[1..], k)
  }

  function ActEffect(p: Purse, k: nat, a: Act, ts: nat): Purse {
    if a.SelfCancel? then
      ApplyEvent(p, k, DbPlain(DbKind.Cancelled, a.resting.(state := OrderState.Cancelled), ts))
    else
      var g, r := a.aggressor, a.resting;
      ApplyEvent(ApplyEvent(p, k, Db(DbEvent(DbKind.Filled, Stamped(g, ts), r.price, a.qty, r.id, r.user))), k,
                 Db(DbEvent(DbKind.Filled, Stamped(r, ts), r.price, a.qty, g.id, g.user)))
  }

  lemma ActSettles(p: Purse, k: nat, a: Act, side: Side, own: int, ts: nat)
    ensures Settle(p, k, ActEvents(a, side, own, ts)) == ActEffect(p, k, a, ts)
  {
    var es := ActEvents(a, side, own, ts);
    if a.SelfCancel? {
      assert es == es[..2] + [es[2]];
      SettleAppend(p, k, es[..2], [es[2]]);
      SettleNone(p, k, es[..2]);
      SettleOne(p, k, es[2]);
    } else {
      assert es == [es[0]] + [es[1]] + es[2..];
      SettleAppend(p, k, [es[0]] + [es[1]], es[2..]);
      SettleAppend(p, k, [es[0]], [es[1]]);
      SettleOne(p, k, es[0]);
      SettleOne(ApplyEvent(p, k, es[0]), k, es[1]);
      SettleNone(Settle(p, k, [es[0]] + [es[1]]), k, es[2..]);
    }
  }

  lemma Split(price: int, rem: int, qty: int)
    ensures price * (rem - qty) == price * rem - price * qty
  {
  }

  lemma Spread(a: int, b: int, qty: int)
    ensures (a - b) * qty == a * qty - b * qty
  {
  }

  /** One turn takes from the blocked accounts what the two orders no longer call for, less the saving. */
  lemma TurnSettles(s: seq<OrderRec>, inc: OrderRec, p: Purse, k: nat, x: int, y: int, own: int, ts: nat)
    requires SideInv(inc.side.Opposite(), s) && !Stops(s, inc) && x >= 0
    requires p.Of(inc.side.Opposite()).blocked == Reserved(s, k) + x
    requires p.Of(inc.side).blocked == DueAt(inc, k) + y
    ensures var a := ActOf(s, inc); var p' := Settle(p, k, ActEvents(a, inc.side, own, ts));
      && p'.Of(inc.side.Opposite()).blocked == Reserved(RestAfter(s, inc), k) + x
      && p'.Of(inc.side).blocked == DueAt(IncAfter(s, inc), k) + y + SavedBy(a, k)
  {
    hide ActEvents, Settle;
    var a := ActOf(s, inc);
    var r := s[0];
    ActSettles(p, k, a, inc.side, own, ts);
    assert WellKept(inc.side.Opposite(), r);
    DuePositive(inc.side.Opposite(), r, k);
    ReservedPositive(inc.side.Opposite(), s[1..], k);
    if a.Fill? {
      Split(r.price, r.rem, a.qty);
      Split(inc.price, inc.rem, a.qty);
      Spread(inc.price, r.price, a.qty);
      assert ([a.resting] + s[1..])[1..] == s[1..];
    }
  }

  lemma {:induction false} SweepSettles(s: seq<OrderRec>, inc: OrderRec, p: Purse, k: nat, x: int, y: int, own: int,
                                        ts: nat)
    requires SideInv(inc.side.Opposite(), s) && x >= 0
    requires p.Of(inc.side.Opposite()).blocked == Reserved(s, k) + x
    requires p.Of(inc.side).blocked == DueAt(inc, k) + y
    ensures var m := Sweep(s, inc); var p' := Settle(p, k, ActsEvents(m.acts, inc.side, own, ts));
      && p'.Of(inc.side.Opposite()).blocked == Reserved(m.rest, k) + x
      && p'.Of(inc.side).blocked == DueAt(m.inc, k) + y + Saved(m.acts, k)
    decreases if inc.rem > 0 then inc.rem else 0, |s|
  {
    if Stops(s, inc) {
      assert Sweep(s, inc).acts == [];
    } else {
      hide ActEvents, ActsEvents, Settle, ActOf, RestAfter, IncAfter, DueAt, Reserved, SavedBy;
      Progress(s, inc);
      TurnTail(inc.side.Opposite(), s, inc);
      TurnKeepsSide(s, inc);
      var t, inc', a := RestAfter(s, inc), IncAfter(s, inc), ActOf(s, inc);
      var acts := Sweep(t, inc').acts;
      TurnSettles(s, inc, p, k, x, y, own, ts);
      SweepSettles(t, inc', Settle(p, k, ActEvents(a, inc.side, own, ts)), k, x, y + SavedBy(a, k), own, ts);
      ActsEventsCons(a, acts, inc.side, own, ts);
      SettleAppend(p, k, ActEvents(a, inc.side, own, ts), ActsEvents(acts, inc.side, own, ts));
      assert ([a] + acts)[1..] == acts;
    }
  }

  // ----- one request

  /** What is blocked beyond the resting orders' reservations. */
  datatype Surplus = Surplus(cash: int, shares: int) {
    function Of(side: Side): int {
      if side.Buy? then cash else shares
    }

    function With(side: Side, amount: int): Surplus {
      if side.Buy? then this.(cash := amount) else this.(shares := amount)
    }

    function Plus(side: Side, amount: int): Surplus {
      if side.Buy? then this.(cash := cash + amount) else this.(shares := shares + amount)
    }
  }

  ghost predicate Covered(p: Purse, b: Book, k: nat, over: Surplus) {
    forall side: Side :: p.Of(side).blocked == Reserved(b.Of(side), k) + over.Of(side)
  }

  predicate NotNegative(over: Surplus) {
    over.cash >= 0 && over.shares >= 0
  }

  /** What a new order of slot k leaves blocked for good: what its fills saved, and what a market order
      did not sell, since its remainder is never reported to the writer. */
  function NewSurplus(b: Book, r: OrderRec, k: nat): int
    requires AllSound(b.Of(r.side.Opposite()))
  {
    if SlotOf(r.user) != k then 0
    else if Full(b) then Due(r)
    else Saved(Match(b, r).acts, k) + if r.kind.Market? then Due(Match(b, r).inc) else 0
  }

  lemma NewQuietEvents(p: Purse, b: Book, r: OrderRec, replacing: bool, k: nat)
    requires AllSound(b.Of(r.side.Opposite()))
    ensures Settle(p, k, NewEvents(b, r, replacing)) ==
      Settle(p, k, ActsEvents(Match(b, r).acts, r.side, Front(b.Of(r.side)), r.ts))
  {
    hide ActsEvents, Match;
    var es0 := if replacing then [] else [DbPlain(DbKind.Accepted, r, r.ts)];
    var es1 := ActsEvents(Match(b, r).acts, r.side, Front(b.Of(r.side)), r.ts);
    SettleAppend(p, k, es0 + es1, ClosingEvents(b, r));
    SettleAppend(p, k, es0, es1);
    if !replacing {
      SettleOne(p, k, es0[0]);
    }
    SettleNone(Settle(p, k, es0 + es1), k, ClosingEvents(b, r));
  }

  /** The saving is never negative: a buyer never pays more than its limit. */
  lemma {:induction false} SavedPositive(inc: OrderRec, acts: seq<Act>, k: nat)
    requires AllFair(inc, acts) && inc.kind.Limit?
    requires forall i :: 0 <= i < |acts| ==> acts[i].Fill? ==> acts[i].aggressor.side == inc.side
    ensures Saved(acts, k) >= 0
  {
    if acts != [] {
      var a := acts[0];
      assert FairAct(inc, a);
      assert forall i :: 0 <= i < |acts[1..]| ==> FairAct(inc, acts[1..][i]) by {
        forall i | 0 <= i < |acts[1..]| ensures FairAct(inc, acts[1..][i]) {
          assert FairAct(inc, acts[i + 1]);
        }
      }
      SavedPositive(inc, acts[1..], k);
      if SavedBy(a, k) != 0 {
        TimesMonotone(0, a.aggressor.price - a.resting.price, a.qty);
      }
    }
  }

  lemma NewSurplusPositive(b: Book, r: OrderRec, k: nat)
    requires Inv(b) && Enterable(r) && r.qty >= 1 && (r.kind.Limit? || r.side.Sell?)
    ensures AllSound(b.Of(r.side.Opposite())) && NewSurplus(b, r, k) >= 0
  {
    hide Inv, Sweep;
    var s := b.Of(r.side.Opposite());
    InvOf(b, r.side.Opposite());
    SweepFair(r.side.Opposite(), s, r);
    SweepBy(s, r);
    SweepExit(s, r);
    var acts := Match(b, r).acts;
    if r.kind.Limit? {
      SavedPositive(r, acts, k);
    } else {
      SoldSavesNothing(acts, k);
    }
  }

  lemma {:induction false} SoldSavesNothing(acts: seq<Act>, k: nat)
    requires forall i :: 0 <= i < |acts| ==> acts[i].Fill? ==> acts[i].aggressor.side.Sell?
    ensures Saved(acts, k) == 0
  {
    if acts != [] {
      SoldSavesNothing(acts[1..], k);
    }
  }

  lemma {:induction false} NoSlotNoSaving(acts: seq<Act>, k: nat)
    requires forall i :: 0 <= i < |acts| ==> acts[i].Fill? ==> SlotOf(acts[i].aggressor.user) != k
    ensures Saved(acts, k) == 0
  {
    if acts != [] {
      NoSlotNoSaving(acts[1..], k);
    }
  }

  /** From its reservation to its last event, a new order leaves blocked what rests and its surplus; z is
      what was blocked before its match beyond what rested then, its own reservation included. */
  lemma NewCovers(b: Book, r: OrderRec, replacing: bool, p: Purse, k: nat, over: Surplus, z: int)
    requires Inv(b) && Enterable(r) && r.qty >= 1 && !Full(b)
    requires NotNegative(over)
    requires p.Of(r.side).blocked == Reserved(b.Of(r.side), k) + z
    requires p.Of(r.side.Opposite()).blocked == Reserved(b.Of(r.side.Opposite()), k) + over.Of(r.side.Opposite())
    ensures AllSound(b.Of(r.side.Opposite()))
    ensures Covered(Settle(p, k, NewEvents(b, r, replacing)), NewBook(b, r), k,
                    over.With(r.side, z - DueAt(r, k) + NewSurplus(b, r, k)))
  {
    hide Inv, Sweep, ActsEvents, NewEvents, Settle;
    var own, s := b.Of(r.side), b.Of(r.side.Opposite());
    InvOf(b, r.side.Opposite());
    NewQuietEvents(p, b, r, replacing, k);
    SweepExit(s, r);
    SweepSettles(s, r, p, k, over.Of(r.side.Opposite()), Reserved(own, k) + z - DueAt(r, k), Front(own), r.ts);
    var m := Match(b, r);
    var final := Closing(m.inc);
    ReservedPlaced(own, final, k);
    if SlotOf(r.user) != k {
      SweepBy(s, r);
      NoSlotNoSaving(m.acts, k);
    }
  }

  lemma CancelCovers(b: Book, r: OrderRec, p: Purse, k: nat, over: Surplus, ts: nat)
    requires Inv(b) && Lookup(b, r.id) == Some(r) && NotNegative(over) && Covered(p, b, k, over)
    ensures Covered(Settle(p, k, CancelEvents(b, r, ts)), Without(b, r), k, over)
  {
    hide Inv, SideInv, Settle, CancelEvents, Reserved, DueAt, RemoveId;
    Found(b, r.id);
    InvOf(b, r.side);
    CancelSettles(b, r, p, k, ts);
    ReservedRemoved(b.Of(r.side), r, k);
    RemoveInv(r.side, b.Of(r.side), r.id);
    SideFacts(r.side, b.Of(r.side), k);
    SideFacts(r.side, RemoveId(b.Of(r.side), r.id), k);
    DuePositive(r.side, r, k);
    assert p.Of(r.side).blocked == Reserved(b.Of(r.side), k) + over.Of(r.side);
    assert p.Of(r.side.Opposite()).blocked == Reserved(b.Of(r.side.Opposite()), k) + over.Of(r.side.Opposite());
  }

  /** A cancellation gives back what the order called for, if that much is blocked. */
  lemma CancelSettles(b: Book, r: OrderRec, p: Purse, k: nat, ts: nat)
    requires WellKept(r.side, r)
    ensures var p', due := Settle(p, k, CancelEvents(b, r, ts)), DueAt(r, k);
      && p'.Of(r.side.Opposite()) == p.Of(r.side.Opposite())
      && (p.Of(r.side).blocked >= due ==>
            p'.Of(r.side) == Account(p.Of(r.side).available + due, p.Of(r.side).blocked - due))
  {
    hide Settle;
    var es := CancelEvents(b, r, ts);
    assert es == es[..2] + [es[2]];
    SettleAppend(p, k, es[..2], [es[2]]);
    SettleNone(p, k, es[..2]);
    SettleOne(p, k, es[2]);
    DuePositive(r.side, r, k);
  }

  /** The release that a reduction reports is exactly what the order no longer calls for. */
  lemma CutReleases(r: OrderRec, qty: int, p: Purse, k: nat, ts: nat)
    requires WellKept(r.side, r) && 1 <= qty < r.qty && r.rem > r.qty - qty
    requires p.Of(r.side).blocked >= DueAt(r, k)
    ensures var r' := Shrink(r, qty);
      var p' := ApplyEvent(p, k, Db(DbEvent(DbKind.Modified, Stamped(r', ts), 0, -(r.qty - qty), 0, 0)));
      && p'.Of(r.side).blocked == p.Of(r.side).blocked - DueAt(r, k) + DueAt(r', k)
      && p'.Of(r.side.Opposite()) == p.Of(r.side.Opposite())
  {
    var cut := r.qty - qty;
    Split(r.price, r.rem, cut);
    TimesMonotone(0, r.rem - cut, r.price);
    TimesMonotone(0, cut, r.price);
  }

  lemma ReduceCovers(b: Book, r: OrderRec, qty: int, p: Purse, k: nat, over: Surplus, ts: nat)
    requires Inv(b) && Lookup(b, r.id) == Some(r) && NotNegative(over) && Covered(p, b, k, over)
    requires 1 <= qty < r.qty && r.rem >= r.qty - qty
    ensures Covered(Settle(p, k, ReducedEvents(b, r, qty, ts)), ReducedBook(b, r, qty), k,
                    over.Plus(r.side, if r.rem == r.qty - qty then DueAt(r, k) else 0))
  {
    hide Inv, SideInv, Settle, ReducedEvents, DueAt, WellKept, Reserved, RemoveId, ReplaceId;
    Found(b, r.id);
    InvOf(b, r.side);
    SideFacts(r.side, b.Of(r.side), k);
    ReservedRemoved(b.Of(r.side), r, k);
    RemoveInv(r.side, b.Of(r.side), r.id);
    SideFacts(r.side, RemoveId(b.Of(r.side), r.id), k);
    ReservedReplaced(b.Of(r.side), r, Shrink(r, qty), k);
    assert p.Of(r.side).blocked == Reserved(b.Of(r.side), k) + over.Of(r.side);
    assert p.Of(r.side.Opposite()).blocked == Reserved(b.Of(r.side.Opposite()), k) + over.Of(r.side.Opposite());
    ReducedSettles(b, r, qty, p, k, ts);
  }

  /** A reduction gives back what it cut, unless it cut all that was left. */
  lemma ReducedSettles(b: Book, r: OrderRec, qty: int, p: Purse, k: nat, ts: nat)
    requires WellKept(r.side, r) && 1 <= qty < r.qty && r.rem >= r.qty - qty && p.Of(r.side).blocked >= DueAt(r, k)
    ensures var p' := Settle(p, k, ReducedEvents(b, r, qty, ts));
      && p'.Of(r.side.Opposite()) == p.Of(r.side.Opposite())
      && p'.Of(r.side).blocked ==
         p.Of(r.side).blocked - (if r.rem == r.qty - qty then 0 else DueAt(r, k) - DueAt(Shrink(r, qty), k))
  {
    hide Settle, ApplyEvent, DueAt;
    var es := ReducedEvents(b, r, qty, ts);
    if r.rem == r.qty - qty {
      SettleNone(p, k, es);
    } else {
      assert es == es[..2] + [es[2]];
      SettleAppend(p, k, es[..2], [es[2]]);
      SettleNone(p, k, es[..2]);
      SettleOne(p, k, es[2]);
      CutReleases(r, qty, p, k, ts);
    }
  }

  lemma SideFacts(side: Side, s: seq<OrderRec>, k: nat)
    requires SideInv(side, s)
    ensures UniqueIds(s) && Reserved(s, k) >= 0
  {
    ReservedPositive(side, s, k);
  }

  // ----- cancel and replace: the fills come before the reservation

  /** The purse when the replacement has been matched but nothing is reserved for what rests of it. */
  function BeforeReblocking(p: Purse, b: Book, r: OrderRec, r': OrderRec, k: nat): Purse
    requires AllSound(Without(b, r).Of(r'.side.Opposite()))
  {
    Settle(Settle(p, k, CancelEvents(b, r, r'.ts)), k, NewEvents(Without(b, r), r', true))
  }

  /** What the writer then manages to reserve for the rest. */
  function Reblocked(p: Purse, b: Book, r: OrderRec, r': OrderRec, k: nat): int
    requires AllSound(Without(b, r).Of(r'.side.Opposite()))
  {
    var final := Closing(Match(Without(b, r), r').inc);
    if SlotOf(r'.user) == k && CanBlock(BeforeReblocking(p, b, r, r', k).Of(r'.side), Due(final)) then Due(final) else 0
  }

  lemma ReplaceCovers(b: Book, r: OrderRec, r': OrderRec, p: Purse, k: nat, over: Surplus)
    requires Inv(b) && Lookup(b, r.id) == Some(r) && NotNegative(over) && Covered(p, b, k, over)
    requires Enterable(r') && r'.kind.Limit? && r'.qty >= 1 && r'.id == r.id && r'.side == r.side && r'.user == r.user
    ensures AllSound(Without(b, r).Of(r'.side.Opposite()))
    ensures Covered(Settle(p, k, ReplacedEvents(b, r, r')), NewBook(Without(b, r), r'), k,
                    over.Plus(r.side, NewSurplus(Without(b, r), r', k) - DueAt(r', k) + Reblocked(p, b, r, r', k)))
  {
    hide Inv, Settle, NewBook, NewEvents, CancelEvents, Match, Reserved, DueAt;
    Found(b, r.id);
    RemoveKeepsInv(b, r);
    var gone := Without(b, r);
    InvOf(gone, r'.side.Opposite());
    CancelCovers(b, r, p, k, over, r'.ts);
    var p1, p2 := Settle(p, k, CancelEvents(b, r, r'.ts)), BeforeReblocking(p, b, r, r', k);
    assert p1.Of(r.side).blocked == Reserved(gone.Of(r.side), k) + over.Of(r.side);
    NewCovers(gone, r', true, p1, k, over, over.Of(r.side));
    SettleAppend(p, k, CancelEvents(b, r, r'.ts) + NewEvents(gone, r', true),
                 PlacedEvents(NewBook(gone, r'), r'.id, r'.ts));
    SettleAppend(p, k, CancelEvents(b, r, r'.ts), NewEvents(gone, r', true));
    PlacedSettles(gone, r', p2, k);
    var p3 := Settle(p2, k, PlacedEvents(NewBook(gone, r'), r'.id, r'.ts));
    var b' := NewBook(gone, r');
    assert p2.Of(r.side).blocked ==
      Reserved(b'.Of(r.side), k) + over.Of(r.side) - DueAt(r', k) + NewSurplus(gone, r', k);
    assert p2.Of(r.side.Opposite()).blocked == Reserved(b'.Of(r.side.Opposite()), k) + over.Of(r.side.Opposite());
    assert p3.Of(r.side).blocked == p2.Of(r.side).blocked + Reblocked(p, b, r, r', k);
  }

  /** The report of what came to rest reserves for it, if the account allows. */
  lemma PlacedSettles(b: Book, r: OrderRec, p: Purse, k: nat)
    requires Inv(b) && Enterable(r) && r.kind.Limit? && r.qty >= 1 && !HasId(b.All(), r.id) && !Full(b)
    ensures AllSound(b.Of(r.side.Opposite()))
    ensures var final := Closing(Match(b, r).inc);
      var p' := Settle(p, k, PlacedEvents(NewBook(b, r), r.id, r.ts));
      && Due(final) >= 0 && p'.Of(r.side.Opposite()) == p.Of(r.side.Opposite())
      && p'.Of(r.side) == if SlotOf(r.user) == k then Blocked(p.Of(r.side), Due(final)) else p.Of(r.side)
  {
    hide Inv, Settle, NewBook, Sweep;
    InvOf(b, r.side.Opposite());
    var b', final := NewBook(b, r), Closing(Match(b, r).inc);
    SweepExit(b.Of(r.side.Opposite()), r);
    NewRests(b, r);
    NewKeepsInv(b, r);
    FindNone(b'.All(), r.id);
    TimesMonotone(0, final.price, final.rem);
    var es := PlacedEvents(b', r.id, r.ts);
    if final.rem > 0 {
      RestsAsFinal(b, r);
      assert es == [es[0]] + [es[1]];
      SettleAppend(p, k, [es[0]], [es[1]]);
      SettleNone(p, k, [es[0]]);
      SettleOne(p, k, es[1]);
    } else {
      SettleNone(p, k, es);
    }
  }

  lemma RestsAsFinal(b: Book, r: OrderRec)
    requires Inv(b) && Enterable(r) && r.kind.Limit? && r.qty >= 1 && !HasId(b.All(), r.id) && !Full(b)
    requires AllSound(b.Of(r.side.Opposite())) && Closing(Match(b, r).inc).rem > 0
    ensures Lookup(NewBook(b, r), r.id) == Some(Closing(Match(b, r).inc))
  {
    hide Inv, Sweep;
    NewKeepsInv(b, r);
    InvUnique(NewBook(b, r));
    SweepExit(b.Of(r.side.Opposite()), r);
    PlaceHas(b.Of(r.side), Closing(Match(b, r).inc));
    LookupOne(NewBook(b, r), Closing(Match(b, r).inc));
  }

  // ----- what a new order's surplus is, from the book before it

  /** A buyer saves its own price on what it bought, less what it gave. */
  lemma {:induction false} SavedIs(inc: OrderRec, acts: seq<Act>, k: nat)
    requires AllBy(inc, acts) && inc.side.Buy? && SlotOf(inc.user) == k
    ensures Saved(acts, k) == inc.price * TradedQty(acts) - Given(acts, true, None)
  {
    if acts != [] {
      var a, rest := acts[0], acts[1..];
      assert forall i :: 0 <= i < |rest| ==> rest[i] == acts[i + 1];
      SavedIs(inc, rest, k);
      if a.Fill? {
        Spread(inc.price, a.resting.price, a.qty);
        Split(inc.price, TradedQty(acts), a.qty);
      }
    }
  }

  /** An order that is not to rest is left with what it reserved, less all it spends. */
  lemma MarketBuyOverdraws(b: Book, r: OrderRec, k: nat)
    requires Inv(b) && Enterable(r) && r.kind.Market? && r.side.Buy? && SlotOf(r.user) == k && !Full(b) && r.rem >= 0
    ensures AllSound(b.asks) && NewSurplus(b, r, k) == Due(r) - Asked(b.asks, r, true, None, 0)
  {
    hide Inv, Sweep;
    InvOf(b, Sell);
    SweepBy(b.asks, r);
    SweepExit(b.asks, r);
    SweepConserves(b.asks, r);
    GivenIsAsked(b.asks, r, true, None);
    SavedIs(r, Match(b, r).acts, k);
    Split(r.price, r.rem, TradedQty(Match(b, r).acts));
  }

  /** A replacement leaves its slot short of all it gives, and of the rest too if the writer could not
      reserve it. */
  lemma ReplacementShort(p: Purse, b: Book, r: OrderRec, r': OrderRec, k: nat)
    requires Inv(Without(b, r)) && !Full(Without(b, r)) && Enterable(r') && r'.kind.Limit? && SlotOf(r'.user) == k
    ensures AllSound(Without(b, r).Of(r'.side.Opposite()))
    ensures NewSurplus(Without(b, r), r', k) - DueAt(r', k) + Reblocked(p, b, r, r', k) ==
      -Asked(Without(b, r).Of(r'.side.Opposite()), r', r'.side.Buy?, None, 0)
      - (Due(Match(Without(b, r), r').inc) - Reblocked(p, b, r, r', k))
  {
    hide Inv, Sweep, Settle, NewEvents, CancelEvents;
    var gone := Without(b, r);
    var s := gone.Of(r'.side.Opposite());
    InvOf(gone, r'.side.Opposite());
    SweepExit(s, r');
    SweepBy(s, r');
    SweepConserves(s, r');
    var m := Match(gone, r');
    GivenIsAsked(s, r', r'.side.Buy?, None);
    if r'.side.Buy? {
      SavedIs(r', m.acts, k);
      Split(r'.price, r'.rem, TradedQty(m.acts));
    } else {
      SoldSavesNothing(m.acts, k);
      GivenQty(m.acts);
    }
  }

  // ----- what a match makes available on the incoming order's own account

  lemma ActGains(s: seq<OrderRec>, inc: OrderRec, p: Purse, k: nat, own: int, ts: nat)
    requires AllSound(s) && !Stops(s, inc) && s[0].side == inc.side.Opposite()
    ensures var a := ActOf(s, inc);
      Settle(p, k, ActEvents(a, inc.side, own, ts)).Of(inc.side).available ==
      p.Of(inc.side).available + GivenBy(a, inc.side.Buy?, Some(k))
  {
    hide ActEvents, Settle;
    ActSettles(p, k, ActOf(s, inc), inc.side, own, ts);
  }

  /** The slot gains what the incoming order gives to the slot's own users. */
  lemma {:induction false} SweepGains(s: seq<OrderRec>, inc: OrderRec, p: Purse, k: nat, own: int, ts: nat)
    requires SideInv(inc.side.Opposite(), s)
    ensures var acts := Sweep(s, inc).acts;
      Settle(p, k, ActsEvents(acts, inc.side, own, ts)).Of(inc.side).available ==
      p.Of(inc.side).available + Given(acts, inc.side.Buy?, Some(k))
    decreases if inc.rem > 0 then inc.rem else 0, |s|
  {
    if Stops(s, inc) {
      assert Sweep(s, inc).acts == [];
    } else {
      hide ActEvents, ActsEvents, Settle, ActOf, RestAfter, IncAfter, GivenBy;
      Progress(s, inc);
      TurnTail(inc.side.Opposite(), s, inc);
      TurnKeepsSide(s, inc);
      var t, inc', a := RestAfter(s, inc), IncAfter(s, inc), ActOf(s, inc);
      var acts := Sweep(t, inc').acts;
      ActGains(s, inc, p, k, own, ts);
      SweepGains(t, inc', Settle(p, k, ActEvents(a, inc.side, own, ts)), k, own, ts);
      ActsEventsCons(a, acts, inc.side, own, ts);
      SettleAppend(p, k, ActEvents(a, inc.side, own, ts), ActsEvents(acts, inc.side, own, ts));
      assert ([a] + acts)[1..] == acts;
    }
  }

  /** What is available when the rest of a replacement is to be reserved: what was, what the order
      replaced gives back, and what the slot's other users were given. */
  lemma BeforeReblockingIs(p: Purse, b: Book, r: OrderRec, r': OrderRec, k: nat)
    requires Inv(b) && Lookup(b, r.id) == Some(r) && SlotOf(r.user) == k && r'.side == r.side
    requires p.Of(r.side).blocked >= Reserved(b.Of(r.side), k)
    ensures AllSound(Without(b, r).Of(r'.side.Opposite()))
    ensures BeforeReblocking(p, b, r, r', k).Of(r.side).available ==
      p.Of(r.side).available + Due(r) + Asked(Without(b, r).Of(r'.side.Opposite()), r', r.side.Buy?, Some(k), 0)
  {
    hide Inv, Sweep, Settle, ActsEvents, NewEvents, CancelEvents;
    Found(b, r.id);
    RemoveKeepsInv(b, r);
    var gone := Without(b, r);
    InvOf(gone, r'.side.Opposite());
    var p1 := Settle(p, k, CancelEvents(b, r, r'.ts));
    CancelFrees(b, r, p, k, r'.ts);
    NewQuietEvents(p1, gone, r', true, k);
    SweepGains(gone.Of(r'.side.Opposite()), r', p1, k, Front(gone.Of(r'.side)), r'.ts);
    GivenIsAsked(gone.Of(r'.side.Opposite()), r', r.side.Buy?, Some(k));
  }

  lemma CancelFrees(b: Book, r: OrderRec, p: Purse, k: nat, ts: nat)
    requires Inv(b) && Lookup(b, r.id) == Some(r) && SlotOf(r.user) == k
    requires p.Of(r.side).blocked >= Reserved(b.Of(r.side), k)
    ensures Settle(p, k, CancelEvents(b, r, ts)).Of(r.side).available == p.Of(r.side).available + Due(r)
  {
    hide Inv, SideInv, Settle, CancelEvents, Reserved, RemoveId;
    Found(b, r.id);
    InvOf(b, r.side);
    CancelSettles(b, r, p, k, ts);
    ReservedRemoved(b.Of(r.side), r, k);
    RemoveInv(r.side, b.Of(r.side), r.id);
    SideFacts(r.side, b.Of(r.side), k);
    SideFacts(r.side, RemoveId(b.Of(r.side), r.id), k);
  }

  // ----- the exchange: admission, matching, settlement

  datatype Exchange = Exchange(engine: Engine, purses: seq<Purse>)

  /** A new order is admitted only if what it calls for can be reserved. */
  function Admit(ps: seq<Purse>, c: Cmd): (admitted: Option<seq<Purse>>)
    requires |ps| == MAX_USERS
  {
    if !c.Add? then Some(ps)
    else
      var k, due := SlotOf(c.user), Due(Incoming(c));
      if CanBlock(ps[k].Of(c.side), due) then Some(ps[k := ps[k].With(c.side, Blocked(ps[k].Of(c.side), due))])
      else None
  }

  /** One request, from its reservation to the settlement of its last event; refused, it changes nothing. */
  function Trade(x: Exchange, q: Request): (x': Exchange)
    requires |x.purses| == MAX_USERS && Accepts(x.engine.book, q.cmd)
    ensures |x'.purses| == MAX_USERS
  {
    match Admit(x.purses, q.cmd)
    case None => x
    case Some(ps) =>
      Exchange(Step(x.engine, q, false),
               seq(MAX_USERS, k requires 0 <= k < MAX_USERS => Settle(ps[k], k, Emitted(x.engine, q))))
  }

  /** Admission asks a price of zero of market orders and a positive one of limit orders. */
  predicate Priced(c: Cmd) {
    c.Add? ==> c.price >= 0
  }

  function ModifySurplus(b: Book, p: Purse, q: Request, k: nat, over: Surplus): Surplus
    requires q.cmd.Modify? && AllSound(b.bids) && AllSound(b.asks)
  {
    if Replaces(b, q.cmd) then
      var r := Lookup(b, q.cmd.id).value;
      var r' := Replacement(r, q.cmd.price, q.cmd.qty, q.now);
      RemoveKeepsSound(b.bids, r.id);
      RemoveKeepsSound(b.asks, r.id);
      over.Plus(r.side, NewSurplus(Without(b, r), r', k) - DueAt(r', k) + Reblocked(p, b, r, r', k))
    else if LandsExactly(b, q.cmd) then
      over.Plus(Lookup(b, q.cmd.id).value.side, DueAt(Lookup(b, q.cmd.id).value, k))
    else over
  }

  function SurplusAfter(x: Exchange, q: Request, k: nat, over: Surplus): Surplus
    requires |x.purses| == MAX_USERS && k < MAX_USERS && Accepts(x.engine.book, q.cmd)
  {
    if Admit(x.purses, q.cmd).None? then over
    else
      match q.cmd
      case Add(_, _, side, _, _, _, _) => over.Plus(side, NewSurplus(x.engine.book, q.Entering(), k))
      case Cancel(_) => over
      case Modify(_, _, _) => ModifySurplus(x.engine.book, x.purses[k], q, k, over)
  }

  lemma AddStepCovers(x: Exchange, q: Request, k: nat, over: Surplus)
    requires |x.purses| == MAX_USERS && k < MAX_USERS && q.cmd.Add? && Priced(q.cmd)
    requires Inv(x.engine.book) && Accepts(x.engine.book, q.cmd) && Orderly(q.cmd)
    requires NotNegative(over) && Covered(x.purses[k], x.engine.book, k, over)
    ensures Covered(Trade(x, q).purses[k], Trade(x, q).engine.book, k, SurplusAfter(x, q, k, over))
  {
    hide Inv, Settle, NewBook, NewEvents, Match, Reserved;
    var b, r := x.engine.book, q.Entering();
    InvOf(b, r.side.Opposite());
    TimesMonotone(0, r.price, r.qty);
    if Admit(x.purses, q.cmd).Some? {
      var p := Admit(x.purses, q.cmd).value[k];
      assert Due(Incoming(q.cmd)) == Due(r) >= 0;
      assert x.purses[k].Of(r.side).blocked == Reserved(b.Of(r.side), k) + over.Of(r.side);
      if Full(b) {
        assert Emitted(x.engine, q) == [];
        SettleNone(p, k, []);
      } else {
        assert Emitted(x.engine, q) == NewEvents(b, r, false);
        NewCovers(b, r, false, p, k, over, over.Of(r.side) + DueAt(r, k));
      }
    }
  }

  lemma ModifyStepCovers(x: Exchange, q: Request, k: nat, over: Surplus)
    requires |x.purses| == MAX_USERS && k < MAX_USERS && q.cmd.Modify?
    requires Inv(x.engine.book) && Accepts(x.engine.book, q.cmd) && Orderly(q.cmd)
    requires NotNegative(over) && Covered(x.purses[k], x.engine.book, k, over)
    ensures Covered(Trade(x, q).purses[k], Trade(x, q).engine.book, k, SurplusAfter(x, q, k, over))
  {
    hide Inv, Settle, NewBook, NewEvents, Reserved, CancelEvents, PlacedEvents, ReducedEvents, ReducedBook, Covered,
         DueAt, NewSurplus, Reblocked;
    var b, p := x.engine.book, x.purses[k];
    if Lookup(b, q.cmd.id).None? {
      assert Emitted(x.engine, q) == [];
      SettleNone(p, k, []);
    } else {
      var r := Lookup(b, q.cmd.id).value;
      Found(b, q.cmd.id);
      DuePositive(r.side, r, k);
      if Replaces(b, q.cmd) {
        var r' := Replacement(r, q.cmd.price, q.cmd.qty, q.now);
        RemoveKeepsInv(b, r);
        ReplaceCovers(b, r, r', p, k, over);
        assert Emitted(x.engine, q) == ReplacedEvents(b, r, r');
      } else if r.rem >= r.qty - q.cmd.qty {
        assert Emitted(x.engine, q) == ReducedEvents(b, r, q.cmd.qty, q.now);
        ReduceCovers(b, r, q.cmd.qty, p, k, over, q.now);
      } else {
        assert Emitted(x.engine, q) == [];
        SettleNone(p, k, []);
      }
    }
  }

  lemma CancelStepCovers(x: Exchange, q: Request, k: nat, over: Surplus)
    requires |x.purses| == MAX_USERS && k < MAX_USERS && q.cmd.Cancel?
    requires Inv(x.engine.book) && NotNegative(over) && Covered(x.purses[k], x.engine.book, k, over)
    ensures Covered(Trade(x, q).purses[k], Trade(x, q).engine.book, k, over)
  {
    hide Inv, Settle, Reserved, CancelEvents, Covered, DueAt;
    var b, p := x.engine.book, x.purses[k];
    if Lookup(b, q.cmd.id).None? {
      assert Emitted(x.engine, q) == [];
      SettleNone(p, k, []);
    } else {
      var r := Lookup(b, q.cmd.id).value;
      Found(b, q.cmd.id);
      assert Emitted(x.engine, q) == CancelEvents(b, r, q.now);
      CancelCovers(b, r, p, k, over, q.now);
    }
  }

  /** One request of any kind: what a slot has blocked is again what rests, plus a surplus told exactly. */
  lemma StepCovers(x: Exchange, q: Request, k: nat, over: Surplus)
    requires |x.purses| == MAX_USERS && k < MAX_USERS && Priced(q.cmd)
    requires Inv(x.engine.book) && Accepts(x.engine.book, q.cmd) && Orderly(q.cmd)
    requires NotNegative(over) && Covered(x.purses[k], x.engine.book, k, over)
    ensures Covered(Trade(x, q).purses[k], Trade(x, q).engine.book, k, SurplusAfter(x, q, k, over))
  {
    hide Inv, Trade, Covered, ModifySurplus;
    match q.cmd
    case Add(_, _, _, _, _, _, _) => AddStepCovers(x, q, k, over);
    case Cancel(_) => CancelStepCovers(x, q, k, over);
    case Modify(_, _, _) => ModifyStepCovers(x, q, k, over);
  }

  // ----- what the writer's batches come to

  /** The batch that the writer collects of an engine's events. */
  function Collected(es: seq<Event>, symbol: nat): seq<Queued> {
    if es == [] then []
    else
      var last := es[|es| - 1];
      Collected(es[..|es| - 1], symbol) + if last.Db? then [Queued(last.event, symbol)] else []
  }

  /** Flushing what was collected is settling what was emitted; other symbols' shares stay as they were. */
  lemma {:induction false} FlushSettles(p: Purse, k: nat, es: seq<Event>, y: nat, y': nat, other: Account)
    requires y' != y
    ensures FoldFunds(p.cash, k, Collected(es, y)) == Settle(p, k, es).cash
    ensures FoldShares(p.shares, k, y, Collected(es, y)) == Settle(p, k, es).shares
    ensures FoldShares(other, k, y', Collected(es, y)) == other
  {
    if es != [] {
      var init, last := es[..|es| - 1], es[|es| - 1];
      FlushSettles(p, k, init, y, y', other);
      if last.Db? {
        assert Collected(es, y)[..|Collected(es, y)| - 1] == Collected(init, y);
      } else {
        assert Collected(es, y) == Collected(init, y);
      }
    }
  }
}
