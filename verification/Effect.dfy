/**
 What the writer will make of an event, told without the account it is settled on: what it takes from a
 slot's blocked funds or shares, or asks to be reserved there, and what all events of a request come to.
 */
module Effects {
  import opened CoreTypes
  import opened PriceTime
  import opened Sweeps
  import opened EngineSpec
  import opened Runs
  import opened BookInvariants
  import opened Recoveries
  import opened EventViews
  import opened Balances
  import opened Costs
  import opened Reservations
  import opened Coverage

  // ----- what an event adds to a blocked account, or takes from it

  /** Unless less is blocked, or a reservation that the event asks for is refused. */
  function Delta(ev: Event, k: nat, side: Side): int {
    if !ev.Db? then 0
    else
      var e := ev.event;
      match e.kind
      case Accepted => 0
      case Filled =>
        if e.order.side.Sell? || e.fillQty <= 0 then 0
        else if side.Buy? then (if SlotOf(e.order.user) == k then -(e.fillPrice * e.fillQty) else 0)
        else if SlotOf(e.peerUser) == k then -e.fillQty else 0
      case Cancelled => if e.order.side == side && e.order.rem > 0 then -DueAt(e.order, k) else 0
      case Modified => if e.order.side == side then DueAt(e.order.(rem := e.fillQty), k) else 0
  }

  function DeltaAll(es: seq<Event>, k: nat, side: Side): int {
    if es == [] then 0 else Delta(es[0], k, side) + DeltaAll(es[1..], k, side)
  }

  /** The event asks for a reservation for the slot: what rests of its replacement. */
  predicate Promises(ev: Event, k: nat) {
    ev.Db? && ev.event.kind.Modified? && SlotOf(ev.event.order.user) == k && ev.event.fillQty > 0
  }

  /** The event takes from the slot's blocked accounts or leaves them as they are. */
  predicate Sinks(ev: Event, k: nat) {
    Delta(ev, k, Buy) <= 0 && Delta(ev, k, Sell) <= 0 && !Promises(ev, k)
  }

  /** It takes, or it asks for a reservation. */
  predicate Plain(ev: Event, k: nat) {
    Sinks(ev, k) || (Promises(ev, k) && ev.event.order.price >= 0)
  }

  ghost predicate AllSink(es: seq<Event>, k: nat) {
    forall i :: 0 <= i < |es| ==> Sinks(es[i], k)
  }

  ghost predicate AllPlain(es: seq<Event>, k: nat) {
    forall i :: 0 <= i < |es| ==> Plain(es[i], k)
  }

  /** Its reservation cannot be made from what is available. */
  predicate Refused(p: Purse, ev: Event, k: nat) {
    Promises(ev, k) && !CanBlock(p.Of(ev.event.order.side), Delta(ev, k, ev.event.order.side))
  }

  function Effect(p: Purse, ev: Event, k: nat, side: Side): int {
    if Refused(p, ev, k) then 0 else Delta(ev, k, side)
  }

  lemma {:induction false} DeltaAppend(a: seq<Event>, b: seq<Event>, k: nat, side: Side)
    ensures DeltaAll(a + b, k, side) == DeltaAll(a, k, side) + DeltaAll(b, k, side)
  {
    if a == [] {
      assert a + b == b;
    } else {
      DeltaAppend(a[1..], b, k, side);
      assert (a + b)[1..] == a[1..] + b;
    }
  }

  lemma {:induction false} DeltaSinks(es: seq<Event>, k: nat, side: Side)
    requires AllSink(es, k)
    ensures DeltaAll(es, k, side) <= 0
  {
    if es != [] {
      assert Sinks(es[0], k);
      DeltaSinks(es[1..], k, side);
    }
  }

  /** As long as enough is blocked, an event adds or takes exactly its delta, unless it is refused. */
  lemma ApplyDelta(p: Purse, k: nat, ev: Event, side: Side)
    requires Plain(ev, k) && p.Of(side).blocked + Delta(ev, k, side) >= 0
    ensures ApplyEvent(p, k, ev).Of(side).blocked == p.Of(side).blocked + Effect(p, ev, k, side)
  {
    if ev.Db? && ev.event.kind.Modified? {
      var o := ev.event.order;
      Signs(o.price, ev.event.fillQty);
    }
  }

  lemma Signs(price: int, qty: int)
    ensures price * -qty == -(price * qty)
    ensures price >= 0 && qty >= 0 ==> price * qty >= 0
  {
  }

  // ----- whether what is blocked pays for a list of events, one by one

  /** The running total never falls below zero. */
  predicate Pays(amount: int, es: seq<Event>, k: nat, side: Side)
    decreases |es|
  {
    amount >= 0 && (es == [] || Pays(amount + Delta(es[0], k, side), es[1..], k, side))
  }

  lemma {:induction false} PaysAppend(amount: int, a: seq<Event>, b: seq<Event>, k: nat, side: Side)
    ensures Pays(amount, a + b, k, side) <==>
      Pays(amount, a, k, side) && Pays(amount + DeltaAll(a, k, side), b, k, side)
    decreases |a|
  {
    if a == [] {
      assert a + b == b;
    } else {
      PaysAppend(amount + Delta(a[0], k, side), a[1..], b, k, side);
      assert (a + b)[1..] == a[1..] + b;
    }
  }

  lemma {:induction false} PaysMore(amount: int, more: int, es: seq<Event>, k: nat, side: Side)
    requires Pays(amount, es, k, side) && amount <= more
    ensures Pays(more, es, k, side)
    decreases |es|
  {
    if es != [] {
      PaysMore(amount + Delta(es[0], k, side), more + Delta(es[0], k, side), es[1..], k, side);
    }
  }

  /** Events that only take are paid for if they are all together. */
  lemma {:induction false} PaysSinks(amount: int, es: seq<Event>, k: nat, side: Side)
    requires AllSink(es, k)
    ensures Pays(amount, es, k, side) <==> amount + DeltaAll(es, k, side) >= 0
    decreases |es|
  {
    if es != [] {
      assert Sinks(es[0], k);
      SinksDown(es[0], k, side);
      DeltaSinks(es[1..], k, side);
      PaysSinks(amount + Delta(es[0], k, side), es[1..], k, side);
    }
  }

  lemma {:induction false} PaysTotal(amount: int, es: seq<Event>, k: nat, side: Side)
    requires Pays(amount, es, k, side)
    ensures amount + DeltaAll(es, k, side) >= 0
    decreases |es|
  {
    if es != [] {
      PaysTotal(amount + Delta(es[0], k, side), es[1..], k, side);
    }
  }

  lemma {:induction false} SettleDelta(p: Purse, k: nat, es: seq<Event>, side: Side)
    requires AllSink(es, k) && p.Of(side).blocked + DeltaAll(es, k, side) >= 0
    ensures Settle(p, k, es).Of(side).blocked == p.Of(side).blocked + DeltaAll(es, k, side)
  {
    if es != [] {
      hide Sinks, Promises, ApplyEvent, Delta;
      var init, last := es[..|es| - 1], es[|es| - 1];
      assert es == init + [last] && [last][1..] == [];
      DeltaAppend(init, [last], k, side);
      assert Sinks(last, k);
      SinksDown(last, k, side);
      SettleDelta(p, k, init, side);
      ApplyDelta(Settle(p, k, init), k, last, side);
    }
  }

  lemma SinksDown(ev: Event, k: nat, side: Side)
    requires Sinks(ev, k)
    ensures Delta(ev, k, side) <= 0 && !Promises(ev, k)
  {
  }

  // ----- what a request emits only takes, but for what a replacement of the slot's own asks for at its end

  predicate OwnReplacement(b: Book, c: Cmd, k: nat) {
    Replaces(b, c) && SlotOf(Lookup(b, c.id).value.user) == k
  }

  lemma ActSinks(s: seq<OrderRec>, inc: OrderRec, k: nat, own: int, ts: nat)
    requires SideInv(inc.side.Opposite(), s) && !Stops(s, inc)
    ensures AllSink(ActEvents(ActOf(s, inc), inc.side, own, ts), k)
  {
    assert WellKept(inc.side.Opposite(), s[0]);
    DuePositive(inc.side.Opposite(), s[0], k);
    TimesMonotone(0, s[0].price, Min(inc.rem, s[0].rem));
  }

  lemma {:induction false} SweepSinks(s: seq<OrderRec>, inc: OrderRec, k: nat, own: int, ts: nat)
    requires SideInv(inc.side.Opposite(), s)
    ensures AllSink(ActsEvents(Sweep(s, inc).acts, inc.side, own, ts), k)
    decreases if inc.rem > 0 then inc.rem else 0, |s|
  {
    if Stops(s, inc) {
      assert Sweep(s, inc).acts == [];
    } else {
      hide ActEvents, ActsEvents, ActOf, RestAfter, IncAfter, Sinks;
      Progress(s, inc);
      TurnTail(inc.side.Opposite(), s, inc);
      TurnKeepsSide(s, inc);
      ActSinks(s, inc, k, own, ts);
      SweepSinks(RestAfter(s, inc), IncAfter(s, inc), k, own, ts);
      ActsEventsCons(ActOf(s, inc), Sweep(RestAfter(s, inc), IncAfter(s, inc)).acts, inc.side, own, ts);
    }
  }

  lemma NewSinks(b: Book, r: OrderRec, replacing: bool, k: nat)
    requires Inv(b)
    ensures AllSound(b.Of(r.side.Opposite())) && AllSink(NewEvents(b, r, replacing), k)
  {
    hide Inv, Sweep, ActsEvents;
    InvOf(b, r.side.Opposite());
    SweepSinks(b.Of(r.side.Opposite()), r, k, Front(b.Of(r.side)), r.ts);
  }

  lemma CancelSinks(b: Book, r: OrderRec, k: nat, ts: nat)
    requires WellKept(r.side, r)
    ensures AllSink(CancelEvents(b, r, ts), k)
  {
    DuePositive(r.side, r, k);
  }

  lemma ReducedSinks(b: Book, r: OrderRec, qty: int, k: nat, ts: nat)
    requires WellKept(r.side, r) && 1 <= qty < r.qty && r.rem >= r.qty - qty
    ensures AllSink(ReducedEvents(b, r, qty, ts), k)
  {
    TimesMonotone(0, r.price, r.qty - qty);
  }

  /** Another slot's replacement asks for a reservation of that slot's alone. */
  lemma PlacedSinks(b: Book, r: OrderRec, k: nat)
    requires Inv(b) && Enterable(r) && r.kind.Limit? && r.qty >= 1 && !HasId(b.All(), r.id) && !Full(b)
    requires SlotOf(r.user) != k
    ensures AllSound(b.Of(r.side.Opposite())) && AllSink(PlacedEvents(NewBook(b, r), r.id, r.ts), k)
  {
    hide Inv, NewBook, Sweep;
    InvOf(b, r.side.Opposite());
    var b', final := NewBook(b, r), Closing(Match(b, r).inc);
    SweepExit(b.Of(r.side.Opposite()), r);
    NewRests(b, r);
    FindNone(b'.All(), r.id);
    if final.rem > 0 {
      RestsAsFinal(b, r);
    }
  }

  lemma EmittedSinks(e: Engine, q: Request, k: nat)
    requires Inv(e.book) && Accepts(e.book, q.cmd) && Orderly(q.cmd) && !OwnReplacement(e.book, q.cmd, k)
    ensures AllSink(Emitted(e, q), k)
  {
    hide Inv, Sinks, NewBook, NewEvents, CancelEvents, PlacedEvents, ReducedEvents, ReducedBook;
    var b := e.book;
    if q.cmd.Add? {
      NewSinks(b, q.Entering(), false, k);
      assert Emitted(e, q) == if Full(b) then [] else NewEvents(b, q.Entering(), false);
    } else if Lookup(b, q.cmd.id).None? {
      assert Emitted(e, q) == [];
    } else {
      var r := Lookup(b, q.cmd.id).value;
      Found(b, q.cmd.id);
      if q.cmd.Cancel? {
        CancelSinks(b, r, k, q.now);
        assert Emitted(e, q) == CancelEvents(b, r, q.now);
      } else if Replaces(b, q.cmd) {
        var r' := Replacement(r, q.cmd.price, q.cmd.qty, q.now);
        RemoveKeepsInv(b, r);
        CancelSinks(b, r, k, q.now);
        NewSinks(Without(b, r), r', true, k);
        PlacedSinks(Without(b, r), r', k);
        assert Emitted(e, q) == ReplacedEvents(b, r, r');
      } else if r.rem >= r.qty - q.cmd.qty {
        ReducedSinks(b, r, q.cmd.qty, k, q.now);
        assert Emitted(e, q) == ReducedEvents(b, r, q.cmd.qty, q.now);
      } else {
        assert Emitted(e, q) == [];
      }
    }
  }

  // ----- what a request's events take, told without an account

  /** What admission reserves for a request. */
  function Asks(c: Cmd, k: nat, side: Side): int {
    if c.Add? && c.side == side then DueAt(Incoming(c), k) else 0
  }

  /** What a request leaves beyond what rests, once its events are settled. */
  function Leaves(b: Book, q: Request, k: nat): Surplus
    requires Accepts(b, q.cmd)
  {
    match q.cmd
    case Add(_, _, side, _, _, _, _) => Surplus(0, 0).Plus(side, NewSurplus(b, q.Entering(), k))
    case Cancel(_) => Surplus(0, 0)
    case Modify(id, _, _) =>
      if OwnReplacement(b, q.cmd, k) then
        Surplus(0, 0).Plus(Lookup(b, id).value.side, -GivenFor(b, q))
      else if LandsExactly(b, q.cmd) then
        Surplus(0, 0).Plus(Lookup(b, id).value.side, DueAt(Lookup(b, id).value, k))
      else Surplus(0, 0)
  }

  function NewTerms(b: Book, q: Request): OrderRec
    requires Replaces(b, q.cmd)
  {
    Replacement(Lookup(b, q.cmd.id).value, q.cmd.price, q.cmd.qty, q.now)
  }

  /** What a replacement gives to the orders it meets. */
  function GivenFor(b: Book, q: Request): int
    requires Replaces(b, q.cmd)
  {
    var r := Lookup(b, q.cmd.id).value;
    Asked(Without(b, r).Of(r.side.Opposite()), NewTerms(b, q), r.side.Buy?, None, 0)
  }

  /** What the slot's own replacement asks the writer to reserve, at the end of its events. */
  function Promised(b: Book, q: Request, k: nat, side: Side): int {
    if OwnReplacement(b, q.cmd, k) && side == Lookup(b, q.cmd.id).value.side
    then Due(LeftToReserve(Without(b, Lookup(b, q.cmd.id).value).Of(side.Opposite()), NewTerms(b, q))) else 0
  }

  /** A slot with z more than the request could ever call for. */
  function Rich(b: Book, k: nat, z: nat): Purse {
    Purse(Account(z, Reserved(b.bids, k) + z), Account(z, Reserved(b.asks, k) + z))
  }

  lemma RichCovered(b: Book, k: nat, z: nat)
    ensures Covered(Rich(b, k, z), b, k, Surplus(z, z))
  {
    SpareCovers(Rich(b, k, z), b, k, Surplus(z, z));
  }

  lemma LeavesIs(x: Exchange, q: Request, k: nat, z: int, side: Side)
    requires |x.purses| == MAX_USERS && k < MAX_USERS && Admit(x.purses, q.cmd).Some?
    requires Inv(x.engine.book) && Accepts(x.engine.book, q.cmd) && !OwnReplacement(x.engine.book, q.cmd, k)
    ensures SurplusAfter(x, q, k, Surplus(z, z)).Of(side) == z + Leaves(x.engine.book, q, k).Of(side)
  {
    hide Inv, Match, Saved;
    if Replaces(x.engine.book, q.cmd) {
      Found(x.engine.book, q.cmd.id);
    }
  }

  function Magnitude(n: int): nat {
    if n < 0 then -n else n
  }

  lemma CoveredAt(p: Purse, b: Book, k: nat, over: Surplus, side: Side)
    requires Covered(p, b, k, over)
    ensures p.Of(side).blocked == Reserved(b.Of(side), k) + over.Of(side)
  {
  }

  lemma OtherDelta(e: Engine, q: Request, k: nat, side: Side)
    requires Inv(e.book) && Accepts(e.book, q.cmd) && Orderly(q.cmd) && Priced(q.cmd)
    requires !OwnReplacement(e.book, q.cmd, k)
    requires k < MAX_USERS
    ensures Asks(q.cmd, k, side) >= 0
    ensures DeltaAll(Emitted(e, q), k, side) ==
      Reserved(Step(e, q, false).book.Of(side), k) - Reserved(e.book.Of(side), k)
      - Asks(q.cmd, k, side) + Leaves(e.book, q, k).Of(side)
  {
    hide Inv, Step, Settle, Reserved, NewSurplus, DeltaAll, AllSink, Covered, SurplusAfter, Leaves, Emitted;
    var es := Emitted(e, q);
    if q.cmd.Add? {
      TimesMonotone(0, q.cmd.price, q.cmd.qty);
    }
    var due := if q.cmd.Add? then Due(Incoming(q.cmd)) else 0;
    var z: nat := due + Magnitude(DeltaAll(es, k, side)) + Magnitude(Reserved(e.book.Of(side), k));
    var x := Exchange(e, seq(MAX_USERS, _ => Rich(e.book, k, z)));
    RichCovered(e.book, k, z);
    StepCovers(x, q, k, Surplus(z, z));
    EmittedSinks(e, q, k);
    SettleDelta(Admit(x.purses, q.cmd).value[k], k, es, side);
    CoveredAt(Trade(x, q).purses[k], Trade(x, q).engine.book, k, SurplusAfter(x, q, k, Surplus(z, z)), side);
    LeavesIs(x, q, k, z, side);
  }

  /** The cancellation and the fills of a replacement take what the book no longer calls for, what is given
      for the fills, and what is still to be reserved for the rest. */
  lemma OwnTakes(b: Book, r: OrderRec, r': OrderRec, k: nat, side: Side)
    requires Inv(b) && Lookup(b, r.id) == Some(r) && SlotOf(r.user) == k && r'.user == r.user
    requires Enterable(r') && r'.kind.Limit? && r'.qty >= 1 && r'.id == r.id && r'.side == r.side
    ensures AllSound(Without(b, r).Of(r'.side.Opposite()))
    ensures var es := CancelEvents(b, r, r'.ts) + NewEvents(Without(b, r), r', true);
      AllSink(es, k) && DeltaAll(es, k, side) ==
        Reserved(NewBook(Without(b, r), r').Of(side), k) - Reserved(b.Of(side), k)
        - if side != r.side then 0 else
          Asked(Without(b, r).Of(r'.side.Opposite()), r', r'.side.Buy?, None, 0) + Due(Match(Without(b, r), r').inc)
  {
    hide Inv, Settle, Reserved, NewSurplus, DeltaAll, Sinks, Covered, NewBook, NewEvents, CancelEvents, Match, Asked,
         Reblocked;
    Found(b, r.id);
    RemoveKeepsInv(b, r);
    var gone := Without(b, r);
    InvOf(gone, r'.side.Opposite());
    CancelSinks(b, r, k, r'.ts);
    NewSinks(gone, r', true, k);
    var es := CancelEvents(b, r, r'.ts) + NewEvents(gone, r', true);
    var z: nat := Magnitude(DeltaAll(es, k, side)) + Magnitude(Reserved(b.Of(side), k));
    var p := Rich(b, k, z);
    RichCovered(b, k, z);
    CancelCovers(b, r, p, k, Surplus(z, z), r'.ts);
    var p1 := Settle(p, k, CancelEvents(b, r, r'.ts));
    CoveredAt(p1, gone, k, Surplus(z, z), r.side);
    CoveredAt(p1, gone, k, Surplus(z, z), r.side.Opposite());
    NewCovers(gone, r', true, p1, k, Surplus(z, z), z);
    SettleAppend(p, k, CancelEvents(b, r, r'.ts), NewEvents(gone, r', true));
    SettleDelta(p, k, es, side);
    ReplacementShort(p, b, r, r', k);
    CoveredAt(Settle(p1, k, NewEvents(gone, r', true)), NewBook(gone, r'), k,
              Surplus(z, z).With(r.side, z - DueAt(r', k) + NewSurplus(gone, r', k)), side);
  }

  /** Its last event asks for the rest. */
  lemma PlacedPlain(b: Book, r: OrderRec, k: nat, side: Side, amount: int)
    requires Inv(b) && Enterable(r) && r.kind.Limit? && r.qty >= 1 && !HasId(b.All(), r.id) && !Full(b)
    requires SlotOf(r.user) == k
    ensures AllSound(b.Of(r.side.Opposite()))
    ensures var es, due := PlacedEvents(NewBook(b, r), r.id, r.ts), Due(Match(b, r).inc);
      && AllPlain(es, k) && due >= 0
      && DeltaAll(es, k, side) == (if side == r.side then due else 0)
      && (Pays(amount, es, k, side) <==> amount >= 0)
  {
    hide Inv, NewBook, Sweep;
    InvOf(b, r.side.Opposite());
    var b', final := NewBook(b, r), Closing(Match(b, r).inc);
    SweepExit(b.Of(r.side.Opposite()), r);
    NewRests(b, r);
    FindNone(b'.All(), r.id);
    TimesMonotone(0, final.price, final.rem);
    var es := PlacedEvents(b', r.id, r.ts);
    if final.rem > 0 {
      RestsAsFinal(b, r);
      AskedFor(final, r.ts, k, side, amount);
    }
  }

  lemma AskedFor(p: OrderRec, ts: nat, k: nat, side: Side, amount: int)
    requires SlotOf(p.user) == k && p.rem > 0 && p.price >= 0
    ensures var es := [ModifyAck(p.id, p.user, p.rem, p.state, ts),
                       Db(DbEvent(DbKind.Modified, Stamped(p, ts), 0, p.rem, 0, 0))];
      && AllPlain(es, k) && DeltaAll(es, k, side) == (if side == p.side then Due(p) else 0)
      && (Pays(amount, es, k, side) <==> amount >= 0)
  {
    var ack := ModifyAck(p.id, p.user, p.rem, p.state, ts);
    var ev := Db(DbEvent(DbKind.Modified, Stamped(p, ts), 0, p.rem, 0, 0));
    Signs(p.price, p.rem);
    assert [ack, ev][1..] == [ev] && [ev][1..] == [];
    assert Delta(ack, k, side) == 0 && Delta(ev, k, side) == (if side == p.side then Due(p) else 0);
    assert DeltaAll([ev], k, side) == Delta(ev, k, side);
    assert Pays(amount, [ev], k, side) <==> amount >= 0;
  }

  /** What a request's events come to for a slot, whatever its accounts hold: what its book no longer calls
      for and its admission reserved, less what it leaves; and they are paid for, one by one, exactly if all
      of them but the reservation asked for at the end are. */
  lemma EmittedDelta(e: Engine, q: Request, k: nat, side: Side, amount: int)
    requires Inv(e.book) && Accepts(e.book, q.cmd) && Orderly(q.cmd) && Priced(q.cmd) && k < MAX_USERS
    ensures AllPlain(Emitted(e, q), k) && Asks(q.cmd, k, side) >= 0 && Promised(e.book, q, k, side) >= 0
    ensures DeltaAll(Emitted(e, q), k, side) ==
      Reserved(Step(e, q, false).book.Of(side), k) - Reserved(e.book.Of(side), k)
      - Asks(q.cmd, k, side) + Leaves(e.book, q, k).Of(side)
    ensures Pays(amount, Emitted(e, q), k, side) <==>
      amount + DeltaAll(Emitted(e, q), k, side) - Promised(e.book, q, k, side) >= 0
  {
    if OwnReplacement(e.book, q.cmd, k) {
      OwnDelta(e, q, k, side, amount);
    } else {
      hide Inv, Step, Emitted, Leaves, Reserved, DeltaAll, Sinks, Pays;
      OtherDelta(e, q, k, side);
      EmittedSinks(e, q, k);
      PaysSinks(amount, Emitted(e, q), k, side);
    }
  }

  lemma OwnDelta(e: Engine, q: Request, k: nat, side: Side, amount: int)
    requires Inv(e.book) && Accepts(e.book, q.cmd) && Orderly(q.cmd) && OwnReplacement(e.book, q.cmd, k)
    ensures AllPlain(Emitted(e, q), k) && Promised(e.book, q, k, side) >= 0
    ensures DeltaAll(Emitted(e, q), k, side) ==
      Reserved(Step(e, q, false).book.Of(side), k) - Reserved(e.book.Of(side), k) + Leaves(e.book, q, k).Of(side)
    ensures Pays(amount, Emitted(e, q), k, side) <==>
      amount + DeltaAll(Emitted(e, q), k, side) - Promised(e.book, q, k, side) >= 0
  {
    hide Inv, NewBook, NewEvents, CancelEvents, PlacedEvents, Match, Asked, Reserved, DeltaAll, Pays, Plain, Sinks;
    var b, r := e.book, Lookup(e.book, q.cmd.id).value;
    var r' := NewTerms(b, q);
    Found(b, q.cmd.id);
    RemoveKeepsInv(b, r);
    var gone := Without(b, r);
    InvOf(gone, r'.side.Opposite());
    var takes, asks := CancelEvents(b, r, r'.ts) + NewEvents(gone, r', true),
        PlacedEvents(NewBook(gone, r'), r'.id, r'.ts);
    assert Emitted(e, q) == takes + asks;
    assert Step(e, q, false).book == NewBook(gone, r');
    OwnTakes(b, r, r', k, side);
    PlacedPlain(gone, r', k, side, amount + DeltaAll(takes, k, side));
    PaysSinks(amount, takes, k, side);
    PaysAppend(amount, takes, asks, k, side);
    DeltaAppend(takes, asks, k, side);
    LeftIs(gone, r');
    SinksPlain(k);
  }

  lemma SinksPlain(k: nat)
    ensures forall ev :: Sinks(ev, k) ==> Plain(ev, k)
  {
  }

  lemma LeftIs(b: Book, r: OrderRec)
    requires AllSound(b.Of(r.side.Opposite())) && r.rem >= 0
    ensures Due(Match(b, r).inc) == Due(LeftToReserve(b.Of(r.side.Opposite()), r))
  {
    SweepTakes(b.Of(r.side.Opposite()), r);
    SweepExit(b.Of(r.side.Opposite()), r);
  }
}
