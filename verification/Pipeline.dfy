/**
 Coverage while requests overlap: requests are admitted, and reserved for, while others wait to be matched in
 whatever order and the events of others wait to be settled. A slot's blocked account and the effects under
 way are together what rests, what is admitted and a surplus that only a match or a refused reservation changes.
 */
module Pipelines {
  import opened CoreTypes
  import opened PriceTime
  import opened Sweeps
  import opened EngineSpec
  import opened Runs
  import opened BookInvariants
  import opened EventViews
  import opened Balances
  import opened Reservations
  import opened Coverage
  import opened Effects

  datatype Pipe = Pipe(
    engine: Engine,
    purses: seq<Purse>,
    inbox: seq<Request>,    // admitted, not yet matched
    unflushed: seq<Event>)  // emitted, not yet settled

  datatype Stage =
    | Arrive(q: Request)  // admission reserves for a request, or refuses it
    | Handle(i: nat)      // the engine handles a request admitted, not always the first
    | Flush               // the writer settles the event emitted first

  ghost predicate Enabled(s: Pipe, l: Stage)
    requires |s.purses| == MAX_USERS
  {
    match l
    case Arrive(_) => true
    case Handle(i) => i < |s.inbox| && Accepts(s.engine.book, s.inbox[i].cmd)
    case Flush => s.unflushed != []
  }

  function Without1(inbox: seq<Request>, i: nat): seq<Request>
    requires i < |inbox|
  {
    inbox[..i] + inbox[i + 1..]
  }

  function Next(s: Pipe, l: Stage): (s': Pipe)
    requires |s.purses| == MAX_USERS && Enabled(s, l)
    ensures |s'.purses| == MAX_USERS
  {
    match l
    case Arrive(q) =>
      if Admit(s.purses, q.cmd).None? then s
      else s.(purses := Admit(s.purses, q.cmd).value, inbox := s.inbox + [q])
    case Handle(i) =>
      var q := s.inbox[i];
      s.(engine := Step(s.engine, q, false), inbox := Without1(s.inbox, i),
         unflushed := s.unflushed + Emitted(s.engine, q))
    case Flush =>
      s.(purses := seq(MAX_USERS, k requires 0 <= k < MAX_USERS => ApplyEvent(s.purses[k], k, s.unflushed[0])),
         unflushed := s.unflushed[1..])
  }

  // ----- the account of one slot

  /** What the requests still to be matched have reserved. */
  function Awaited(inbox: seq<Request>, k: nat, side: Side): int {
    if inbox == [] then 0 else Asks(inbox[0].cmd, k, side) + Awaited(inbox[1..], k, side)
  }

  /** What is blocked, with what events under way will do, beyond what rests and what awaits a match. */
  function Over(s: Pipe, k: nat, side: Side): int
    requires |s.purses| == MAX_USERS && k < MAX_USERS
  {
    s.purses[k].Of(side).blocked + DeltaAll(s.unflushed, k, side)
    - Reserved(s.engine.book.Of(side), k) - Awaited(s.inbox, k, side)
  }

  ghost predicate FreshId(s: Pipe, c: Cmd) {
    c.Add? ==>
      && !HasId(s.engine.book.All(), c.id)
      && forall i :: 0 <= i < |s.inbox| && s.inbox[i].cmd.Add? ==> s.inbox[i].cmd.id != c.id
  }

  /** The requests admitted are lawful for the book that will meet them, in any order. */
  ghost predicate InboxOk(s: Pipe) {
    && (forall i :: 0 <= i < |s.inbox| ==> Orderly(s.inbox[i].cmd) && Priced(s.inbox[i].cmd))
    && (forall i :: 0 <= i < |s.inbox| && s.inbox[i].cmd.Add? ==> !HasId(s.engine.book.All(), s.inbox[i].cmd.id))
    && (forall i, j :: 0 <= i < j < |s.inbox| && s.inbox[i].cmd.Add? && s.inbox[j].cmd.Add? ==>
          s.inbox[i].cmd.id != s.inbox[j].cmd.id)
  }

  /** What is blocked pays for the events under way, one by one, so no release will be clamped. */
  ghost predicate PipeInv(s: Pipe, k: nat) {
    && |s.purses| == MAX_USERS && k < MAX_USERS
    && Inv(s.engine.book) && InboxOk(s) && AllPlain(s.unflushed, k)
    && Pays(s.purses[k].cash.blocked, s.unflushed, k, Buy) && Pays(s.purses[k].shares.blocked, s.unflushed, k, Sell)
  }

  /** What a stage may bring: lawful requests. */
  ghost predicate Allowed(s: Pipe, l: Stage)
    requires |s.purses| == MAX_USERS && Enabled(s, l)
  {
    l.Arrive? ==> Orderly(l.q.cmd) && Priced(l.q.cmd) && FreshId(s, l.q.cmd)
  }

  /** Only a match changes the surplus, by what it leaves, and a refused reservation, by its amount. */
  function Change(s: Pipe, l: Stage, k: nat, side: Side): int
    requires |s.purses| == MAX_USERS && k < MAX_USERS && Enabled(s, l)
  {
    match l
    case Arrive(_) => 0
    case Handle(i) => Leaves(s.engine.book, s.inbox[i], k).Of(side)
    case Flush => Effect(s.purses[k], s.unflushed[0], k, side) - Delta(s.unflushed[0], k, side)
  }

  function OverNext(s: Pipe, l: Stage, k: nat, side: Side): int
    requires |s.purses| == MAX_USERS && k < MAX_USERS && Enabled(s, l)
  {
    Over(s, k, side) + Change(s, l, k, side)
  }

  /** What will be blocked once all events under way, the request's own among them, are settled, but for the
      reservation that its replacement asks for. */
  function Remains(s: Pipe, i: nat, k: nat, side: Side): int
    requires |s.purses| == MAX_USERS && k < MAX_USERS && Enabled(s, Handle(i))
  {
    Reserved(Step(s.engine, s.inbox[i], false).book.Of(side), k) + Awaited(Without1(s.inbox, i), k, side)
    + OverNext(s, Handle(i), k, side) - Promised(s.engine.book, s.inbox[i], k, side)
  }

  /** Whether what is blocked will still pay for everything under way, told before the stage. */
  ghost predicate Payable(s: Pipe, l: Stage, k: nat)
    requires |s.purses| == MAX_USERS && k < MAX_USERS && Enabled(s, l)
  {
    match l
    case Arrive(_) => true
    case Handle(i) => Remains(s, i, k, Buy) >= 0 && Remains(s, i, k, Sell) >= 0
    case Flush =>
      Refused(s.purses[k], s.unflushed[0], k) ==>
        && Pays(s.purses[k].cash.blocked, s.unflushed[1..], k, Buy)
        && Pays(s.purses[k].shares.blocked, s.unflushed[1..], k, Sell)
  }

  lemma {:induction false} AwaitedAppend(a: seq<Request>, b: seq<Request>, k: nat, side: Side)
    ensures Awaited(a + b, k, side) == Awaited(a, k, side) + Awaited(b, k, side)
  {
    if a == [] {
      assert a + b == b;
    } else {
      AwaitedAppend(a[1..], b, k, side);
      assert (a + b)[1..] == a[1..] + b;
    }
  }

  /** Whichever request leaves the inbox, what it asked for goes with it. */
  lemma AwaitedCut(inbox: seq<Request>, i: nat, k: nat, side: Side)
    requires i < |inbox|
    ensures Awaited(inbox, k, side) == Awaited(Without1(inbox, i), k, side) + Asks(inbox[i].cmd, k, side)
  {
    AwaitedAppend(inbox[..i], inbox[i..], k, side);
    AwaitedAppend(inbox[..i], inbox[i + 1..], k, side);
    assert inbox == inbox[..i] + inbox[i..] && inbox[i..][1..] == inbox[i + 1..];
  }

  lemma {:induction false} AwaitedPositive(inbox: seq<Request>, k: nat, side: Side)
    requires forall i :: 0 <= i < |inbox| ==> Orderly(inbox[i].cmd) && Priced(inbox[i].cmd)
    ensures Awaited(inbox, k, side) >= 0
  {
    if inbox != [] {
      var c := inbox[0].cmd;
      if c.Add? {
        TimesMonotone(0, c.price, c.qty);
      }
      AwaitedPositive(inbox[1..], k, side);
    }
  }

  // ----- one stage

  lemma ArriveOver(s: Pipe, q: Request, k: nat, side: Side)
    requires PipeInv(s, k) && Orderly(q.cmd) && Priced(q.cmd)
    ensures Over(Next(s, Arrive(q)), k, side) == Over(s, k, side)
    ensures Pays(s.purses[k].Of(side).blocked, s.unflushed, k, side) ==>
      Pays(Next(s, Arrive(q)).purses[k].Of(side).blocked, s.unflushed, k, side)
  {
    hide Inv, InboxOk, AllPlain, DeltaAll, Reserved, Pays;
    var s' := Next(s, Arrive(q));
    if q.cmd.Add? {
      TimesMonotone(0, q.cmd.price, q.cmd.qty);
    }
    AwaitedAppend(s.inbox, [q], k, side);
    assert [q][1..] == [];
    if Pays(s.purses[k].Of(side).blocked, s.unflushed, k, side) {
      PaysMore(s.purses[k].Of(side).blocked, s'.purses[k].Of(side).blocked, s.unflushed, k, side);
    }
  }

  lemma HandleOver(s: Pipe, i: nat, k: nat, side: Side)
    requires PipeInv(s, k) && Enabled(s, Handle(i)) && Pays(s.purses[k].Of(side).blocked, s.unflushed, k, side)
    ensures Over(Next(s, Handle(i)), k, side) == OverNext(s, Handle(i), k, side)
    ensures Pays(s.purses[k].Of(side).blocked, Next(s, Handle(i)).unflushed, k, side) <==> Remains(s, i, k, side) >= 0
  {
    hide Inv, Step, Emitted, Leaves, Promised, Reserved, DeltaAll, AllPlain, Pays, Asks, Awaited, Without1;
    var q, amount := s.inbox[i], s.purses[k].Of(side).blocked;
    EmittedDelta(s.engine, q, k, side, amount + DeltaAll(s.unflushed, k, side));
    DeltaAppend(s.unflushed, Emitted(s.engine, q), k, side);
    PaysAppend(amount, s.unflushed, Emitted(s.engine, q), k, side);
    AwaitedCut(s.inbox, i, k, side);
  }

  /** The event finds enough blocked for what it takes, so that it is settled to the last unit. */
  lemma FlushOver(s: Pipe, k: nat, side: Side)
    requires PipeInv(s, k) && Enabled(s, Flush) && Pays(s.purses[k].Of(side).blocked, s.unflushed, k, side)
    ensures Over(Next(s, Flush), k, side) == OverNext(s, Flush, k, side)
    ensures Next(s, Flush).purses[k].Of(side).blocked ==
      s.purses[k].Of(side).blocked + Effect(s.purses[k], s.unflushed[0], k, side)
    ensures s.purses[k].Of(side).blocked + Delta(s.unflushed[0], k, side) >= 0
    ensures !Refused(s.purses[k], s.unflushed[0], k) ==>
      Pays(Next(s, Flush).purses[k].Of(side).blocked, s.unflushed[1..], k, side)
  {
    hide Inv, InboxOk, Plain, Delta, ApplyEvent, Refused, Reserved, Awaited;
    assert Plain(s.unflushed[0], k);
    ApplyDelta(s.purses[k], k, s.unflushed[0], side);
  }

  lemma HandleInbox(s: Pipe, i: nat, k: nat)
    requires PipeInv(s, k) && Enabled(s, Handle(i))
    ensures InboxOk(Next(s, Handle(i))) && Inv(Next(s, Handle(i)).engine.book)
  {
    hide Inv, Step, Emitted, Accepts, AllPlain, Pays;
    var q, s' := s.inbox[i], Next(s, Handle(i));
    OrderlyAccepted(s.engine.book, q.cmd);
    StepInv(s.engine, q, false);
    StepIds(s.engine, q, false);
    assert forall j :: 0 <= j < |s'.inbox| ==> s'.inbox[j] == s.inbox[if j < i then j else j + 1];
  }

  /** Every request admitted can be handled, in any order. */
  lemma HandleReady(s: Pipe, i: nat, k: nat)
    requires PipeInv(s, k) && i < |s.inbox|
    ensures Enabled(s, Handle(i))
  {
    hide Inv, AllPlain, Pays, Accepts;
    OrderlyAccepted(s.engine.book, s.inbox[i].cmd);
  }

  lemma HandlePlain(s: Pipe, i: nat, k: nat)
    requires PipeInv(s, k) && Enabled(s, Handle(i))
    ensures AllPlain(Next(s, Handle(i)).unflushed, k)
  {
    hide Inv, Step, Emitted, Plain, Leaves, Promised, Pays;
    EmittedDelta(s.engine, s.inbox[i], k, Buy, 0);
  }

  /** Every stage keeps the account to the last unit; and what is blocked goes on paying for all that is under
      way exactly when it can be told before the stage that it will. */
  lemma StageKeeps(s: Pipe, l: Stage, k: nat)
    requires PipeInv(s, k) && Enabled(s, l) && Allowed(s, l)
    ensures forall side: Side :: Over(Next(s, l), k, side) == OverNext(s, l, k, side)
    ensures PipeInv(Next(s, l), k) <==> Payable(s, l, k)
  {
    hide Inv, Over, OverNext, Step, Emitted, Plain, Pays, Remains, Refused, Effect, Delta;
    var s' := Next(s, l);
    forall side: Side
      ensures Over(s', k, side) == OverNext(s, l, k, side)
      ensures Pays(s'.purses[k].Of(side).blocked, s'.unflushed, k, side) <==> PaysAfter(s, l, k, side)
    {
      assert Pays(s.purses[k].Of(side).blocked, s.unflushed, k, side);
      StageSide(s, l, k, side);
    }
    assert Pays(s'.purses[k].Of(Buy).blocked, s'.unflushed, k, Buy) <==> PaysAfter(s, l, k, Buy);
    assert Pays(s'.purses[k].Of(Sell).blocked, s'.unflushed, k, Sell) <==> PaysAfter(s, l, k, Sell);
    if l.Handle? {
      HandlePlain(s, l.i, k);
      HandleInbox(s, l.i, k);
    }
  }

  /** Payable, on one side. */
  ghost predicate PaysAfter(s: Pipe, l: Stage, k: nat, side: Side)
    requires |s.purses| == MAX_USERS && k < MAX_USERS && Enabled(s, l)
  {
    match l
    case Arrive(_) => true
    case Handle(i) => Remains(s, i, k, side) >= 0
    case Flush =>
      Refused(s.purses[k], s.unflushed[0], k) ==> Pays(s.purses[k].Of(side).blocked, s.unflushed[1..], k, side)
  }

  lemma StageSide(s: Pipe, l: Stage, k: nat, side: Side)
    requires PipeInv(s, k) && Enabled(s, l) && Allowed(s, l)
    requires Pays(s.purses[k].Of(side).blocked, s.unflushed, k, side)
    ensures Over(Next(s, l), k, side) == OverNext(s, l, k, side)
    ensures Pays(Next(s, l).purses[k].Of(side).blocked, Next(s, l).unflushed, k, side) <==> PaysAfter(s, l, k, side)
  {
    hide Inv, Over, Step, Emitted, Plain, Pays, Remains, Refused, Delta, Leaves, InboxOk, FreshId, AllPlain;
    match l
    case Arrive(q) => ArriveOver(s, q, k, side);
    case Handle(i) => HandleOver(s, i, k, side);
    case Flush => FlushOver(s, k, side);
  }

  /** A surplus that stays non-negative pays, unless a reservation is refused. */
  lemma SparePays(s: Pipe, l: Stage, k: nat)
    requires PipeInv(s, k) && Enabled(s, l) && Allowed(s, l)
    requires OverNext(s, l, k, Buy) >= 0 && OverNext(s, l, k, Sell) >= 0
    requires l.Flush? ==> !Refused(s.purses[k], s.unflushed[0], k)
    ensures Payable(s, l, k)
  {
    hide Inv, OverNext, Step, Plain, Pays, Refused, Promised, AllPlain;
    if l.Handle? {
      HandleInbox(s, l.i, k);
      HoldsPromise(s.engine, s.inbox[l.i], k, Buy);
      HoldsPromise(s.engine, s.inbox[l.i], k, Sell);
      var s' := Next(s, l);
      AwaitedPositive(s'.inbox, k, Buy);
      AwaitedPositive(s'.inbox, k, Sell);
    }
  }

  /** What a replacement asks for rests on the book it leaves. */
  lemma HoldsPromise(e: Engine, q: Request, k: nat, side: Side)
    requires Inv(e.book) && Accepts(e.book, q.cmd) && Orderly(q.cmd) && Inv(Step(e, q, false).book)
    ensures Promised(e.book, q, k, side) <= Reserved(Step(e, q, false).book.Of(side), k)
  {
    hide Inv, Match, Reserved;
    ReservedOf(Step(e, q, false).book, k, side);
    if OwnReplacement(e.book, q.cmd, k) {
      var b, r := e.book, Lookup(e.book, q.cmd.id).value;
      Found(b, q.cmd.id);
      RemoveKeepsInv(b, r);
      var gone, r' := Without(b, r), NewTerms(b, q);
      InvOf(gone, r.side.Opposite());
      LeftIs(gone, r');
      ReservedOf(gone, k, r.side);
      ReservedPlaced(gone.Of(r.side), Closing(Match(gone, r').inc), k);
      RestOrNothing(gone, r');
    }
  }

  lemma RestOrNothing(b: Book, r: OrderRec)
    requires AllSound(b.Of(r.side.Opposite())) && r.kind.Limit? && r.rem >= 1 && r.qty == r.rem && r.state.New?
    ensures var m := Match(b, r).inc;
      && Due(Closing(m)) == Due(m) && Closing(m).user == r.user
      && (!Rests(Closing(m)) ==> Due(m) == 0)
  {
    SweepExit(b.Of(r.side.Opposite()), r);
  }

  lemma ReservedOf(b: Book, k: nat, side: Side)
    requires Inv(b)
    ensures Reserved(b.Of(side), k) >= 0
  {
    InvOf(b, side);
    ReservedPositive(side, b.Of(side), k);
  }

  // ----- whole runs

  ghost predicate Proceeds(s: Pipe, ls: seq<Stage>)
    requires |s.purses| == MAX_USERS
    decreases |ls|, 0
  {
    ls == [] ||
    var init, l := ls[..|ls| - 1], ls[|ls| - 1];
    Proceeds(s, init) && Enabled(After(s, init), l) && Allowed(After(s, init), l)
  }

  ghost function After(s: Pipe, ls: seq<Stage>): (s': Pipe)
    requires |s.purses| == MAX_USERS && Proceeds(s, ls)
    ensures |s'.purses| == MAX_USERS
    decreases |ls|, 1
  {
    if ls == [] then s else Next(After(s, ls[..|ls| - 1]), ls[|ls| - 1])
  }

  /** At every moment of the run what is blocked pays for what is under way. */
  ghost predicate AlwaysPays(s: Pipe, ls: seq<Stage>, k: nat)
    requires |s.purses| == MAX_USERS && Proceeds(s, ls)
  {
    PipeInv(After(s, ls), k) && (ls == [] || AlwaysPays(s, ls[..|ls| - 1], k))
  }

  ghost predicate AllPayable(s: Pipe, ls: seq<Stage>, k: nat)
    requires |s.purses| == MAX_USERS && Proceeds(s, ls) && k < MAX_USERS
  {
    ls == [] || (AllPayable(s, ls[..|ls| - 1], k) && Payable(After(s, ls[..|ls| - 1]), ls[|ls| - 1], k))
  }

  /** The surplus of a run: what its matches left, less the reservations refused. */
  ghost function Surpluses(s: Pipe, ls: seq<Stage>, k: nat, side: Side): int
    requires |s.purses| == MAX_USERS && Proceeds(s, ls) && k < MAX_USERS
  {
    if ls == [] then 0
    else Surpluses(s, ls[..|ls| - 1], k, side) + Change(After(s, ls[..|ls| - 1]), ls[|ls| - 1], k, side)
  }

  /** An exchange that opens, with nothing under way. */
  function Opened(x: Exchange): Pipe {
    Pipe(x.engine, x.purses, [], [])
  }

  lemma OpeningKeeps(x: Exchange, k: nat)
    requires Opening(x) && k < MAX_USERS
    ensures PipeInv(Opened(x), k) && forall side: Side :: Over(Opened(x), k, side) == 0
  {
    hide Inv;
    EmptyInv();
    assert x.purses[k].Of(Buy).blocked == 0 && x.purses[k].Of(Sell).blocked == 0;
  }

  /** Over every run, market buys and replacements included and matched in any order: what is blocked pays
      for what is under way at every moment exactly when each stage could be told to; and then the account is
      the run's surplus beyond what rests and what is awaited, so that with nothing under way the slot is
      covered exactly when that surplus is not negative. */
  lemma {:induction false} PipelineExact(x: Exchange, ls: seq<Stage>, k: nat)
    requires Opening(x) && k < MAX_USERS && Proceeds(Opened(x), ls)
    ensures AlwaysPays(Opened(x), ls, k) <==> AllPayable(Opened(x), ls, k)
    ensures AllPayable(Opened(x), ls, k) ==>
      forall side: Side :: Over(After(Opened(x), ls), k, side) == Surpluses(Opened(x), ls, k, side)
    ensures var s := After(Opened(x), ls);
      AllPayable(Opened(x), ls, k) && s.inbox == [] && s.unflushed == [] ==>
        (Covers(s.purses[k], s.engine.book, k) <==>
         Surpluses(Opened(x), ls, k, Buy) >= 0 && Surpluses(Opened(x), ls, k, Sell) >= 0)
  {
    hide Enabled, Allowed, Next, Change, Payable, PipeInv, Over;
    var s0 := Opened(x);
    if ls == [] {
      OpeningKeeps(x, k);
    } else {
      var init, l := ls[..|ls| - 1], ls[|ls| - 1];
      PipelineExact(x, init, k);
      if AllPayable(s0, init, k) {
        StageKeeps(After(s0, init), l, k);
      }
    }
    if AllPayable(s0, ls, k) {
      assert Over(After(s0, ls), k, Buy) == Surpluses(s0, ls, k, Buy);
      assert Over(After(s0, ls), k, Sell) == Surpluses(s0, ls, k, Sell);
      if After(s0, ls).inbox == [] && After(s0, ls).unflushed == [] {
        Drained(After(s0, ls), k);
      }
    }
  }

  lemma Drained(s: Pipe, k: nat)
    requires |s.purses| == MAX_USERS && k < MAX_USERS && s.inbox == [] && s.unflushed == []
    ensures Covers(s.purses[k], s.engine.book, k) <==> Over(s, k, Buy) >= 0 && Over(s, k, Sell) >= 0
  {
    hide Reserved;
    SpareCovers(s.purses[k], s.engine.book, k, Spare(s.purses[k], s.engine.book, k));
  }

  // ----- slots without market buys and replacements

  /** Every request matched is of a kind that never leaves the slot short. */
  ghost predicate AllSpare(s: Pipe, ls: seq<Stage>, k: nat)
    requires |s.purses| == MAX_USERS && Proceeds(s, ls)
  {
    ls == [] || (AllSpare(s, ls[..|ls| - 1], k) && Spares(After(s, ls[..|ls| - 1]), ls[|ls| - 1], k))
  }

  ghost predicate Spares(s: Pipe, l: Stage, k: nat)
    requires |s.purses| == MAX_USERS && Enabled(s, l)
  {
    l.Handle? ==> Reservable(s.engine.book, s.inbox[l.i].cmd, k)
  }

  lemma SparesChange(s: Pipe, l: Stage, k: nat, side: Side)
    requires PipeInv(s, k) && Enabled(s, l) && Spares(s, l, k) && AllSink(s.unflushed, k)
    ensures Change(s, l, k, side) >= 0 && AllSink(Next(s, l).unflushed, k)
    ensures l.Flush? ==> !Refused(s.purses[k], s.unflushed[0], k)
  {
    hide Inv, NewSurplus, Sinks, Delta, Step, Emitted, Pays;
    match l
    case Arrive(_) =>
    case Handle(i) =>
      EmittedSinks(s.engine, s.inbox[i], k);
      LeavesPositive(s, i, k, side);
    case Flush =>
      assert Sinks(s.unflushed[0], k);
      SinksDown(s.unflushed[0], k, side);
  }

  lemma LeavesPositive(s: Pipe, i: nat, k: nat, side: Side)
    requires PipeInv(s, k) && Enabled(s, Handle(i)) && Spares(s, Handle(i), k)
    ensures Leaves(s.engine.book, s.inbox[i], k).Of(side) >= 0
  {
    hide Inv, NewSurplus, Pays, AllPlain;
    var b, q := s.engine.book, s.inbox[i];
    if q.cmd.Add? {
      if SlotOf(q.cmd.user) != k {
        OtherSlot(b, q.Entering(), k);
      } else {
        NewSurplusPositive(b, q.Entering(), k);
      }
    } else if LandsExactly(b, q.cmd) {
      Found(b, q.cmd.id);
      DuePositive(Lookup(b, q.cmd.id).value.side, Lookup(b, q.cmd.id).value, k);
    }
  }

  lemma OtherSlot(b: Book, r: OrderRec, k: nat)
    requires AllSound(b.Of(r.side.Opposite())) && SlotOf(r.user) != k
    ensures NewSurplus(b, r, k) == 0
  {
  }

  /** However admission, matching and settlement interleave, a slot that makes no market buys and no
      replacements has at least blocked, at every moment, what rests, what awaits its match and what events
      under way will take; and with nothing under way it covers what rests. */
  lemma {:induction false} PipelineCovers(x: Exchange, ls: seq<Stage>, k: nat)
    requires Opening(x) && k < MAX_USERS && Proceeds(Opened(x), ls) && AllSpare(Opened(x), ls, k)
    ensures AllPayable(Opened(x), ls, k) && AllSink(After(Opened(x), ls).unflushed, k)
    ensures var s := After(Opened(x), ls);
      && PipeInv(s, k) && Over(s, k, Buy) >= 0 && Over(s, k, Sell) >= 0
      && (s.inbox == [] && s.unflushed == [] ==> Covers(s.purses[k], s.engine.book, k))
  {
    hide Enabled, Allowed, Next, Change, Payable, PipeInv, Over, Spares, AllSink, Covers;
    var s0 := Opened(x);
    if ls == [] {
      OpeningKeeps(x, k);
      assert AllSink(s0.unflushed, k) by {
        NoneSink(k);
      }
    } else {
      var init, l := ls[..|ls| - 1], ls[|ls| - 1];
      PipelineCovers(x, init, k);
      SpareStage(After(s0, init), l, k);
    }
    if After(s0, ls).inbox == [] && After(s0, ls).unflushed == [] {
      Drained(After(s0, ls), k);
    }
  }

  lemma NoneSink(k: nat)
    ensures AllSink([], k)
  {
  }

  lemma SpareStage(s: Pipe, l: Stage, k: nat)
    requires PipeInv(s, k) && Enabled(s, l) && Allowed(s, l) && Spares(s, l, k) && AllSink(s.unflushed, k)
    requires Over(s, k, Buy) >= 0 && Over(s, k, Sell) >= 0
    ensures Payable(s, l, k) && PipeInv(Next(s, l), k) && AllSink(Next(s, l).unflushed, k)
    ensures Over(Next(s, l), k, Buy) >= 0 && Over(Next(s, l), k, Sell) >= 0
  {
    assert k < MAX_USERS;
    hide Enabled, Allowed, Next, Change, Payable, PipeInv, Over, Spares, AllSink, Refused;
    SparesChange(s, l, k, Buy);
    SparesChange(s, l, k, Sell);
    SparePays(s, l, k);
    StageKeeps(s, l, k);
    assert Over(Next(s, l), k, Buy) == OverNext(s, l, k, Buy) && Over(Next(s, l), k, Sell) == OverNext(s, l, k, Sell);
  }
}
