/**
 Exactly when what is blocked covers what is open: request by request, as the book and the account stand
 before it, and over whole runs.
 */
module Coverage {
  import opened CoreTypes
  import opened PriceTime
  import opened Sweeps
  import opened EngineSpec
  import opened Runs
  import opened BookInvariants
  import opened Recoveries
  import opened Balances
  import opened Costs
  import opened Reservations

  /** The slot has at least blocked what its resting orders call for. */
  ghost predicate Covers(p: Purse, b: Book, k: nat) {
    forall side: Side :: p.Of(side).blocked >= Reserved(b.Of(side), k)
  }

  /** And this much more. */
  function Spare(p: Purse, b: Book, k: nat): Surplus {
    Surplus(p.cash.blocked - Reserved(b.bids, k), p.shares.blocked - Reserved(b.asks, k))
  }

  lemma SpareCovers(p: Purse, b: Book, k: nat, over: Surplus)
    ensures Covered(p, b, k, over) <==> over == Spare(p, b, k)
    ensures Covers(p, b, k) <==> NotNegative(Spare(p, b, k))
  {
    assert Covers(p, b, k) ==>
      p.Of(Buy).blocked >= Reserved(b.Of(Buy), k) && p.Of(Sell).blocked >= Reserved(b.Of(Sell), k);
    assert Covered(p, b, k, over) ==>
      && p.Of(Buy).blocked == Reserved(b.Of(Buy), k) + over.Of(Buy)
      && p.Of(Sell).blocked == Reserved(b.Of(Sell), k) + over.Of(Sell);
  }

  // ----- one request

  /** What of a replacement will be left to reserve. */
  function LeftToReserve(s: seq<OrderRec>, r': OrderRec): OrderRec {
    r'.(rem := r'.rem - Min(r'.rem, OnOffer(s, r')))
  }

  /** What the replacement gives, and the rest of it if it cannot be reserved from what is then available,
      is no more than is spare. */
  predicate ReplacementEnough(p: Purse, b: Book, r: OrderRec, r': OrderRec, k: nat) {
    var s := Without(b, r).Of(r.side.Opposite());
    var due := Due(LeftToReserve(s, r'));
    var free := p.Of(r.side).available + Due(r) + Asked(s, r', r.side.Buy?, Some(k), 0);
    Asked(s, r', r.side.Buy?, None, 0) + (if CanBlock(Account(free, 0), due) then 0 else due) <=
      Spare(p, b, k).Of(r.side)
  }

  /** Whether a request leaves the slot covered, told from the book and the slot's account before it. Only
      the slot's own market buys and replacements can fail it. */
  predicate Enough(p: Purse, b: Book, q: Request, k: nat) {
    match q.cmd
    case Add(_, user, side, kind, _, _, _) =>
      SlotOf(user) == k && kind.Market? && side.Buy? && !Full(b) && CanBlock(p.cash, Due(q.Entering())) ==>
        Asked(b.asks, q.Entering(), true, None, 0) <= Due(q.Entering()) + Spare(p, b, k).cash
    case Cancel(_) => true
    case Modify(id, price, qty) =>
      Replaces(b, q.cmd) && SlotOf(Lookup(b, id).value.user) == k ==>
        ReplacementEnough(p, b, Lookup(b, id).value, Replacement(Lookup(b, id).value, price, qty, q.now), k)
  }

  lemma AddEnough(x: Exchange, q: Request, k: nat)
    requires |x.purses| == MAX_USERS && k < MAX_USERS && q.cmd.Add? && Priced(q.cmd)
    requires Inv(x.engine.book) && Accepts(x.engine.book, q.cmd) && Orderly(q.cmd)
    requires Covers(x.purses[k], x.engine.book, k)
    ensures var b, over := x.engine.book, Spare(x.purses[k], x.engine.book, k);
      NotNegative(SurplusAfter(x, q, k, over)) <==> Enough(x.purses[k], b, q, k)
  {
    hide Inv, Match, Reserved, Asked;
    var b, r, p := x.engine.book, q.Entering(), x.purses[k];
    SpareCovers(p, b, k, Spare(p, b, k));
    TimesMonotone(0, r.price, r.qty);
    InvOf(b, r.side.Opposite());
    assert Due(Incoming(q.cmd)) == Due(r);
    if r.kind.Limit? || r.side.Sell? {
      NewSurplusPositive(b, r, k);
    } else if SlotOf(r.user) == k && !Full(b) {
      MarketBuyOverdraws(b, r, k);
    }
  }

  lemma ReplaceEnough(p: Purse, b: Book, r: OrderRec, r': OrderRec, k: nat)
    requires Inv(b) && Lookup(b, r.id) == Some(r) && Covers(p, b, k) && r'.user == r.user
    requires Enterable(r') && r'.kind.Limit? && r'.qty >= 1 && r'.id == r.id && r'.side == r.side
    ensures AllSound(Without(b, r).Of(r'.side.Opposite()))
    ensures NewSurplus(Without(b, r), r', k) - DueAt(r', k) + Reblocked(p, b, r, r', k) + Spare(p, b, k).Of(r.side) >= 0
      <==> (SlotOf(r.user) == k ==> ReplacementEnough(p, b, r, r', k))
  {
    hide Inv, Sweep, Asked, Settle, NewEvents, CancelEvents, Reserved;
    SpareCovers(p, b, k, Spare(p, b, k));
    Found(b, r.id);
    RemoveKeepsInv(b, r);
    var gone := Without(b, r);
    var s := gone.Of(r'.side.Opposite());
    InvOf(gone, r'.side.Opposite());
    if SlotOf(r.user) == k {
      SweepTakes(s, r');
      SweepExit(s, r');
      assert Due(Closing(Match(gone, r').inc)) == Due(LeftToReserve(s, r'));
      assert p.Of(r.side).blocked >= Reserved(b.Of(r.side), k);
      BeforeReblockingIs(p, b, r, r', k);
      ReplacementShort(p, b, r, r', k);
    }
  }

  lemma ModifyEnough(x: Exchange, q: Request, k: nat)
    requires |x.purses| == MAX_USERS && k < MAX_USERS && q.cmd.Modify?
    requires Inv(x.engine.book) && Accepts(x.engine.book, q.cmd) && Orderly(q.cmd)
    requires Covers(x.purses[k], x.engine.book, k)
    ensures var b, over := x.engine.book, Spare(x.purses[k], x.engine.book, k);
      NotNegative(SurplusAfter(x, q, k, over)) <==> Enough(x.purses[k], b, q, k)
  {
    hide Inv, NewSurplus, Reblocked, ReplacementEnough, DueAt, Reserved;
    var b, p := x.engine.book, x.purses[k];
    SpareCovers(p, b, k, Spare(p, b, k));
    if Lookup(b, q.cmd.id).Some? {
      var r := Lookup(b, q.cmd.id).value;
      Found(b, q.cmd.id);
      DuePositive(r.side, r, k);
      if Replaces(b, q.cmd) {
        ReplaceEnough(p, b, r, Replacement(r, q.cmd.price, q.cmd.qty, q.now), k);
      }
    }
  }

  /** A slot that is covered stays covered by a request exactly when its own spare funds or shares are
      enough for it; requests of other slots never matter. */
  lemma StepExact(x: Exchange, q: Request, k: nat)
    requires |x.purses| == MAX_USERS && k < MAX_USERS && Priced(q.cmd)
    requires Inv(x.engine.book) && Accepts(x.engine.book, q.cmd) && Orderly(q.cmd)
    requires Covers(x.purses[k], x.engine.book, k)
    ensures Covers(Trade(x, q).purses[k], Trade(x, q).engine.book, k) <==> Enough(x.purses[k], x.engine.book, q, k)
  {
    hide Inv, Trade, Covered, Covers, Spare, Enough, ModifySurplus, Reserved;
    var over := Spare(x.purses[k], x.engine.book, k);
    SpareCovers(x.purses[k], x.engine.book, k, over);
    StepCovers(x, q, k, over);
    SpareCovers(Trade(x, q).purses[k], Trade(x, q).engine.book, k, SurplusAfter(x, q, k, over));
    match q.cmd
    case Add(_, _, _, _, _, _, _) => AddEnough(x, q, k);
    case Cancel(_) => CancelEnough(x.purses[k], x.engine.book, q, k);
    case Modify(_, _, _) => ModifyEnough(x, q, k);
  }

  lemma CancelEnough(p: Purse, b: Book, q: Request, k: nat)
    requires q.cmd.Cancel?
    ensures Enough(p, b, q, k)
  {
  }

  /** With nothing to spare, a market buy leaves its slot covered only if it meets no offer at all. */
  lemma MarketBuyExact(p: Purse, b: Book, q: Request, k: nat)
    requires Inv(b) && q.cmd.Add? && q.cmd.kind.Market? && q.cmd.side.Buy? && q.cmd.price == 0 && q.cmd.qty >= 1
    requires SlotOf(q.cmd.user) == k && !Full(b) && Spare(p, b, k).cash == 0
    requires forall i :: 0 <= i < |b.asks| ==> b.asks[i].price >= 1
    ensures Enough(p, b, q, k) <==> OnOffer(b.asks, q.Entering()) == 0
  {
    hide Reserved, Asked, OnOffer;
    InvOf(b, Sell);
    FreeExactly(b.asks, q.Entering(), true);
    AskedBounds(b.asks, q.Entering(), true, None, 0);
  }

  /** And a replacement, only if it meets no offer within its reach and can be reserved in full from what
      was available with the old order's reservation. */
  lemma ReplacementExact(p: Purse, b: Book, r: OrderRec, r': OrderRec, k: nat)
    requires Inv(b) && Lookup(b, r.id) == Some(r) && SlotOf(r.user) == k && Spare(p, b, k).Of(r.side) == 0
    requires r'.side == r.side && r'.rem >= 1 && r'.price >= 1
    requires forall i :: 0 <= i < |b.Of(r.side.Opposite())| ==> b.Of(r.side.Opposite())[i].price >= 1
    ensures ReplacementEnough(p, b, r, r', k) <==>
      && OnOffer(b.Of(r.side.Opposite()), r') == 0
      && CanBlock(Account(p.Of(r.side).available + Due(r), 0), Due(r'))
  {
    hide Reserved, Asked, OnOffer;
    var s := b.Of(r.side.Opposite());
    InvOf(b, r.side.Opposite());
    assert Without(b, r).Of(r.side.Opposite()) == s;
    FreeExactly(s, r', r.side.Buy?);
    AskedBounds(s, r', r.side.Buy?, None, 0);
    AskedQty(s, r');
    var left := LeftToReserve(s, r');
    TimesMonotone(0, left.rem, r'.price);
    TimesMonotone(1, r'.rem, r'.price);
  }

  // ----- whole runs

  ghost predicate Receives(x: Exchange, qs: seq<Request>)
    requires |x.purses| == MAX_USERS
    decreases |qs|, 0
  {
    qs == [] ||
    (Receives(x, qs[..|qs| - 1]) && Accepts(Traded(x, qs[..|qs| - 1]).engine.book, qs[|qs| - 1].cmd))
  }

  ghost function Traded(x: Exchange, qs: seq<Request>): (x': Exchange)
    requires |x.purses| == MAX_USERS && Receives(x, qs)
    ensures |x'.purses| == MAX_USERS
    decreases |qs|, 1
  {
    if qs == [] then x else Trade(Traded(x, qs[..|qs| - 1]), qs[|qs| - 1])
  }

  ghost function SurplusOf(x: Exchange, qs: seq<Request>, k: nat): Surplus
    requires |x.purses| == MAX_USERS && k < MAX_USERS && Receives(x, qs)
  {
    if qs == [] then Surplus(0, 0)
    else SurplusAfter(Traded(x, qs[..|qs| - 1]), qs[|qs| - 1], k, SurplusOf(x, qs[..|qs| - 1], k))
  }

  /** The slot has not been short before any request of the run. */
  ghost predicate NeverShort(x: Exchange, qs: seq<Request>, k: nat)
    requires |x.purses| == MAX_USERS && k < MAX_USERS && Receives(x, qs)
  {
    qs == [] || (NeverShort(x, qs[..|qs| - 1], k) && NotNegative(SurplusOf(x, qs[..|qs| - 1], k)))
  }

  /** An exchange that opens with an empty book and nothing blocked. */
  predicate Opening(x: Exchange) {
    |x.purses| == MAX_USERS && x.engine == EMPTY &&
    forall k :: 0 <= k < MAX_USERS ==> x.purses[k].cash.blocked == 0 && x.purses[k].shares.blocked == 0
  }

  /** A lawful run is always accepted, whichever of its orders are refused for want of funds. */
  lemma {:induction false} TradedInv(x: Exchange, qs: seq<Request>)
    requires Opening(x) && Lawful(qs)
    ensures Receives(x, qs) && Inv(Traded(x, qs).engine.book)
    ensures forall id :: HasId(Traded(x, qs).engine.book.All(), id) ==> Entered(qs, id)
  {
    hide Inv, Step, Accepts, Harmless;
    if qs == [] {
      EmptyInv();
    } else {
      var init, q := qs[..|qs| - 1], qs[|qs| - 1];
      TradedInv(x, init);
      var e := Traded(x, init).engine;
      OrderlyAccepted(e.book, q.cmd);
      StepInv(e, q, false);
      StepIds(e, q, false);
      forall id | HasId(Trade(Traded(x, init), q).engine.book.All(), id) ensures Entered(qs, id) {
        if Entered(init, id) {
          var i :| 0 <= i < |init| && init[i].cmd.Add? && init[i].cmd.id == id;
          assert qs[i] == init[i];
        } else {
          assert qs[|qs| - 1] == q;
        }
      }
    }
  }

  /** As long as a slot has not fallen short, its blocked funds and shares are exactly what its resting
      orders call for, plus its surplus. */
  lemma {:induction false} RunCovers(x: Exchange, qs: seq<Request>, k: nat)
    requires Opening(x) && Lawful(qs) && Receives(x, qs) && k < MAX_USERS && NeverShort(x, qs, k)
    requires forall i :: 0 <= i < |qs| ==> Priced(qs[i].cmd)
    ensures Covered(Traded(x, qs).purses[k], Traded(x, qs).engine.book, k, SurplusOf(x, qs, k))
  {
    hide Inv, Step, Accepts, Trade, SurplusAfter;
    if qs != [] {
      var init, q := qs[..|qs| - 1], qs[|qs| - 1];
      assert forall i :: 0 <= i < |init| ==> init[i] == qs[i];
      TradedInv(x, init);
      RunCovers(x, init, k);
      StepCovers(Traded(x, init), q, k, SurplusOf(x, init, k));
    }
  }

  // ----- exactly which runs keep a slot covered

  /** After each request of the run the slot is covered. */
  ghost predicate AlwaysCovers(x: Exchange, qs: seq<Request>, k: nat)
    requires |x.purses| == MAX_USERS && k < MAX_USERS && Receives(x, qs)
  {
    Covers(Traded(x, qs).purses[k], Traded(x, qs).engine.book, k) && (qs == [] || AlwaysCovers(x, qs[..|qs| - 1], k))
  }

  /** Each request of the run found enough to spare. */
  ghost predicate AlwaysEnough(x: Exchange, qs: seq<Request>, k: nat)
    requires |x.purses| == MAX_USERS && k < MAX_USERS && Receives(x, qs)
  {
    qs == [] ||
    (AlwaysEnough(x, qs[..|qs| - 1], k) &&
     Enough(Traded(x, qs[..|qs| - 1]).purses[k], Traded(x, qs[..|qs| - 1]).engine.book, qs[|qs| - 1], k))
  }

  /** A slot is covered throughout a run exactly when each of its market buys and replacements found
      enough to spare; nothing is asked of the requests of other slots. */
  lemma {:induction false} RunExact(x: Exchange, qs: seq<Request>, k: nat)
    requires Opening(x) && Lawful(qs) && k < MAX_USERS
    requires forall i :: 0 <= i < |qs| ==> Priced(qs[i].cmd)
    ensures Receives(x, qs)
    ensures AlwaysCovers(x, qs, k) <==> AlwaysEnough(x, qs, k)
  {
    hide Inv, Step, Accepts, Trade, Enough;
    TradedInv(x, qs);
    if qs != [] {
      hide Covers;
      var init, q := qs[..|qs| - 1], qs[|qs| - 1];
      assert forall i :: 0 <= i < |init| ==> init[i] == qs[i];
      TradedInv(x, init);
      RunExact(x, init, k);
      if AlwaysCovers(x, init, k) {
        StepExact(Traded(x, init), q, k);
      }
    }
  }

  /** Requests that never leave slot k short, whatever it has: others' requests, limit orders, sells,
      cancels, and modifies that are not replacements. */
  predicate Reservable(b: Book, c: Cmd, k: nat) {
    match c
    case Add(_, user, side, kind, _, _, _) => SlotOf(user) != k || kind.Limit? || side.Sell?
    case Cancel(_) => true
    case Modify(id, _, _) => !Replaces(b, c) || SlotOf(Lookup(b, id).value.user) != k
  }

  ghost predicate AllReservable(x: Exchange, qs: seq<Request>, k: nat)
    requires |x.purses| == MAX_USERS && Receives(x, qs)
  {
    qs == [] ||
    (AllReservable(x, qs[..|qs| - 1], k) && Reservable(Traded(x, qs[..|qs| - 1]).engine.book, qs[|qs| - 1].cmd, k))
  }

  /** So a slot that makes no market buys and no replacements is covered throughout. */
  lemma {:induction false} RunReserves(x: Exchange, qs: seq<Request>, k: nat)
    requires Opening(x) && Lawful(qs) && k < MAX_USERS
    requires forall i :: 0 <= i < |qs| ==> Priced(qs[i].cmd)
    requires Receives(x, qs) && AllReservable(x, qs, k)
    ensures AlwaysEnough(x, qs, k) && AlwaysCovers(x, qs, k)
  {
    RunExact(x, qs, k);
    if qs != [] {
      hide Inv, Step, Accepts, Trade, Covers;
      var init := qs[..|qs| - 1];
      assert forall i :: 0 <= i < |init| ==> init[i] == qs[i];
      RunReserves(x, init, k);
    }
  }
}
