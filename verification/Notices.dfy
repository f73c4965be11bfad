/**
 What users and the tape are told of trades, over whole runs and from the events and requests alone: every
 notice goes to the user who entered its order, every trade is told alike to both users, the database, the
 tape and the trade file, and an order's fill notices add up to what it has been filled by.
 */
module Notices {
  import opened CoreTypes
  import opened PriceTime
  import opened Sweeps
  import opened EngineSpec
  import opened Runs
  import opened BookInvariants
  import opened EventViews
  import opened Terms

  // ----- whose an order is, and what was asked of it

  ghost predicate Belongs(qs: seq<Request>, id: nat, user: nat) {
    exists i :: 0 <= i < |qs| && qs[i].cmd.Add? && qs[i].cmd.id == id && qs[i].cmd.user == user
  }

  /** The command enters the order. */
  predicate EntersAs(c: Cmd, r: OrderRec) {
    c.Add? && c.id == r.id && c.user == r.user && c.side == r.side && c.kind == r.kind
  }

  /** The command asks for the order's price and quantity. */
  predicate AsksFor(c: Cmd, r: OrderRec) {
    !c.Cancel? && c.id == r.id && c.price == r.price && c.qty == r.qty
  }

  /** One request entered the order, and one asked for it as it is. */
  ghost predicate Known(qs: seq<Request>, r: OrderRec) {
    && (exists i :: 0 <= i < |qs| && EntersAs(qs[i].cmd, r))
    && (exists i :: 0 <= i < |qs| && AsksFor(qs[i].cmd, r))
  }

  ghost predicate AllKnown(qs: seq<Request>, s: seq<OrderRec>) {
    forall i :: 0 <= i < |s| ==> Known(qs, s[i])
  }

  // ----- reading the events

  /** The notice that goes with a database fill. */
  predicate Notifies(n: Event, ev: DbEvent) {
    var o := ev.order;
    && n == OrderFill(o.id, o.user, ev.fillPrice, ev.fillQty, o.rem, o.state, o.ts)
    && 0 <= o.rem && o.state == if o.rem == 0 then OrderState.Filled else PartiallyFilled
  }

  /** Five events that tell of one trade, and its line in the trade file: between orders of different users and
      sides, at the price of the one that rested, which is no worse than the other's limit. */
  ghost predicate Deal(es: seq<Event>, line: TradeLine, qs: seq<Request>) {
    && |es| == 5 && es[0].Db? && es[1].Db? && es[4].TradePrint?
    && var g, r := es[0].event, es[1].event;
    && g.kind.Filled? && r.kind.Filled? && Known(qs, g.order) && Known(qs, r.order)
    && line == TradeLine(g.order.id, r.order.id, es[4].price, es[4].qty)
    && g.fillPrice == r.fillPrice == es[4].price && g.fillQty == r.fillQty == es[4].qty && es[4].qty > 0
    && g.peerId == r.order.id && g.peerUser == r.order.user && r.peerId == g.order.id && r.peerUser == g.order.user
    && Notifies(es[2], g) && Notifies(es[3], r)
    && es[4].side == g.order.side && g.order.side != r.order.side && g.order.user != r.order.user
    && r.order.kind.Limit? && r.order.price == es[4].price
    && (g.order.kind.Limit? ==>
          if g.order.side.Buy? then g.order.price >= es[4].price else g.order.price <= es[4].price)
  }

  /** The last event, when it is not of a trade: acknowledgements go to the order's user, and a cancellation in
      the database follows its acknowledgement. */
  ghost predicate Single(out: seq<Event>, qs: seq<Request>)
    requires out != []
  {
    match out[|out| - 1]
    case QuoteUpdate(_, _, _) => true
    case CancelAck(id, user, _, _, _) => Belongs(qs, id, user)
    case ModifyAck(id, user, _, _, _) => Belongs(qs, id, user)
    case Db(ev) =>
      && Known(qs, ev.order) && !ev.kind.Filled?
      && (ev.kind.Cancelled? ==> |out| >= 2 && Announces(out[|out| - 2], ev.order))
    case _ => false
  }

  predicate Announces(ack: Event, o: OrderRec) {
    ack.CancelAck? && ack.id == o.id && ack.user == o.user && ack.rem == o.rem && ack.ts == o.ts
  }

  /** The events are single ones and trades, and their trades are the lines of the trade file, one by one. */
  ghost predicate Told(out: seq<Event>, lines: seq<TradeLine>, qs: seq<Request>)
    decreases |out|
  {
    if out == [] then lines == []
    else
      var n := |out| - 1;
      if out[n].TradePrint? then
        && n >= 4 && lines != [] && Deal(out[n - 4..], lines[|lines| - 1], qs)
        && Told(out[..n - 4], lines[..|lines| - 1], qs)
      else Single(out, qs) && Told(out[..n], lines, qs)
  }

  // ----- more requests, more events

  lemma KnownMore(qs: seq<Request>, q: Request, r: OrderRec)
    requires Known(qs, r)
    ensures Known(qs + [q], r)
  {
    var qs' := qs + [q];
    var i :| 0 <= i < |qs| && EntersAs(qs[i].cmd, r);
    var j :| 0 <= j < |qs| && AsksFor(qs[j].cmd, r);
    assert EntersAs(qs'[i].cmd, r) && AsksFor(qs'[j].cmd, r);
  }

  lemma BelongsMore(qs: seq<Request>, q: Request, id: nat, user: nat)
    requires Belongs(qs, id, user)
    ensures Belongs(qs + [q], id, user)
  {
    var i :| 0 <= i < |qs| && qs[i].cmd.Add? && qs[i].cmd.id == id && qs[i].cmd.user == user;
    assert (qs + [q])[i] == qs[i];
  }

  lemma KnownBelongs(qs: seq<Request>, r: OrderRec)
    requires Known(qs, r)
    ensures Belongs(qs, r.id, r.user)
  {
    var i :| 0 <= i < |qs| && EntersAs(qs[i].cmd, r);
  }

  lemma KnownSame(qs: seq<Request>, r: OrderRec, r': OrderRec)
    requires Known(qs, r) && r' == r.(rem := r'.rem, ts := r'.ts, state := r'.state)
    ensures Known(qs, r')
  {
    var i :| 0 <= i < |qs| && EntersAs(qs[i].cmd, r);
    var j :| 0 <= j < |qs| && AsksFor(qs[j].cmd, r);
    assert EntersAs(qs[i].cmd, r') && AsksFor(qs[j].cmd, r');
  }

  lemma {:induction false} ToldMore(out: seq<Event>, lines: seq<TradeLine>, qs: seq<Request>, q: Request)
    requires Told(out, lines, qs)
    ensures Told(out, lines, qs + [q])
    decreases |out|
  {
    if out != [] {
      hide Known, Belongs, Notifies;
      var n := |out| - 1;
      if out[n].TradePrint? {
        ToldMore(out[..n - 4], lines[..|lines| - 1], qs, q);
        KnownMore(qs, q, out[n - 4..][0].event.order);
        KnownMore(qs, q, out[n - 4..][1].event.order);
      } else {
        ToldMore(out[..n], lines, qs, q);
        if out[n].Db? {
          KnownMore(qs, q, out[n].event.order);
        } else if !out[n].QuoteUpdate? {
          BelongsMore(qs, q, out[n].id, out[n].user);
        }
      }
    }
  }

  lemma ToldOne(out: seq<Event>, lines: seq<TradeLine>, qs: seq<Request>, ev: Event)
    requires Told(out, lines, qs) && !ev.TradePrint? && Single(out + [ev], qs)
    ensures Told(out + [ev], lines, qs)
  {
    assert (out + [ev])[..|out|] == out;
  }

  lemma ToldDeal(out: seq<Event>, lines: seq<TradeLine>, qs: seq<Request>, es: seq<Event>, line: TradeLine)
    requires Told(out, lines, qs) && Deal(es, line, qs)
    ensures Told(out + es, lines + [line], qs)
  {
    hide Deal, Known;
    var all := out + es;
    assert |es| == 5 && es[4].TradePrint? by {
      assert Deal(es, line, qs);
      DealShape(es, line, qs);
    }
    assert all[|all| - 5..] == es && all[..|all| - 5] == out && (lines + [line])[..|lines|] == lines;
  }

  lemma DealShape(es: seq<Event>, line: TradeLine, qs: seq<Request>)
    requires Deal(es, line, qs)
    ensures |es| == 5 && es[4].TradePrint?
  {
  }

  /** A cancellation: its quote, its acknowledgement, its database event. */
  lemma ToldCancel(out: seq<Event>, lines: seq<TradeLine>, qs: seq<Request>, quote: Event, r: OrderRec,
                   state: OrderState, ts: nat)
    requires Told(out, lines, qs) && quote.QuoteUpdate? && Known(qs, r)
    ensures Told(out + [quote, CancelAck(r.id, r.user, r.rem, state, ts),
                        DbPlain(DbKind.Cancelled, r.(state := OrderState.Cancelled), ts)], lines, qs)
  {
    hide Known, Belongs, Told;
    var ack := CancelAck(r.id, r.user, r.rem, state, ts);
    var db := DbPlain(DbKind.Cancelled, r.(state := OrderState.Cancelled), ts);
    KnownBelongs(qs, r);
    KnownSame(qs, r, db.event.order);
    ToldOne(out, lines, qs, quote);
    ToldOne(out + [quote], lines, qs, ack);
    ToldOne(out + [quote] + [ack], lines, qs, db);
    assert out + [quote] + [ack] + [db] == out + [quote, ack, db];
  }

  // ----- a match

  lemma TurnDeal(s: seq<OrderRec>, inc: OrderRec, own: int, ts: nat, qs: seq<Request>)
    requires SideInv(inc.side.Opposite(), s) && !Stops(s, inc) && inc.rem <= inc.qty && s[0].user != inc.user
    requires Known(qs, s[0]) && Known(qs, inc)
    ensures var a := ActOf(s, inc);
      && a.Fill? && a.aggressor.id == inc.id && a.resting.id == s[0].id
      && Deal(ActEvents(a, inc.side, own, ts), TradeLine(inc.id, s[0].id, a.resting.price, a.qty), qs)
  {
    hide Known;
    assert WellKept(inc.side.Opposite(), s[0]);
    var a := ActOf(s, inc);
    KnownSame(qs, inc, Stamped(a.aggressor, ts));
    KnownSame(qs, s[0], Stamped(a.resting, ts));
  }

  lemma TurnKnown(s: seq<OrderRec>, inc: OrderRec, qs: seq<Request>)
    requires s != [] && AllKnown(qs, s) && Known(qs, inc)
    ensures AllKnown(qs, RestAfter(s, inc)) && Known(qs, IncAfter(s, inc))
  {
    hide Known;
    KnownSame(qs, inc, IncAfter(s, inc));
    if s[0].user != inc.user {
      KnownSame(qs, s[0], Reduced(s[0], Min(inc.rem, s[0].rem)));
    }
  }

  lemma {:induction false} LinesCons(a: Act, acts: seq<Act>)
    ensures ActsTrades([a] + acts) == ActsTrades([a]) + ActsTrades(acts)
  {
    var all := [a] + acts;
    if acts == [] {
      assert all == [a];
    } else {
      var n := |acts| - 1;
      LinesCons(a, acts[..n]);
      assert all[..|all| - 1] == [a] + acts[..n] && all[|all| - 1] == acts[n];
    }
  }

  lemma LinesOne(a: Act)
    ensures ActsTrades([a]) ==
      if a.Fill? then [TradeLine(a.aggressor.id, a.resting.id, a.resting.price, a.qty)] else []
  {
    assert [a][..0] == [];
  }

  lemma TurnTold(out: seq<Event>, lines: seq<TradeLine>, s: seq<OrderRec>, inc: OrderRec, own: int, ts: nat,
                 qs: seq<Request>)
    requires SideInv(inc.side.Opposite(), s) && !Stops(s, inc) && inc.rem <= inc.qty
    requires Told(out, lines, qs) && AllKnown(qs, s) && Known(qs, inc)
    ensures Told(out + ActEvents(ActOf(s, inc), inc.side, own, ts), lines + ActsTrades([ActOf(s, inc)]), qs)
  {
    hide Known, Told, Deal, SideInv, ActsTrades;
    LinesOne(ActOf(s, inc));
    if s[0].user == inc.user {
      var bid := if inc.side.Buy? then own else ActOf(s, inc).best;
      var ask := if inc.side.Buy? then ActOf(s, inc).best else own;
      ToldCancel(out, lines, qs, QuoteUpdate(bid, ask, ts), s[0], OrderState.Cancelled, ts);
      assert lines + [] == lines;
    } else {
      TurnDeal(s, inc, own, ts, qs);
      hide ActEvents;
      ToldDeal(out, lines, qs, ActEvents(ActOf(s, inc), inc.side, own, ts), ActsTrades([ActOf(s, inc)])[0]);
    }
  }

  /** A sweep is its first turn and the sweep of what that leaves. */
  lemma SweepUnfold(s: seq<OrderRec>, inc: OrderRec, own: int, ts: nat)
    requires AllSound(s) && !Stops(s, inc)
    ensures AllSound(RestAfter(s, inc))
    ensures var a, m, next := ActOf(s, inc), Sweep(s, inc), Sweep(RestAfter(s, inc), IncAfter(s, inc));
      && m.rest == next.rest && m.inc == next.inc && m.acts == [a] + next.acts
      && ActsTrades(m.acts) == ActsTrades([a]) + ActsTrades(next.acts)
      && ActsEvents(m.acts, inc.side, own, ts) ==
         ActEvents(a, inc.side, own, ts) + ActsEvents(next.acts, inc.side, own, ts)
  {
    hide ActsEvents, ActsTrades, ActOf, ActEvents;
    Progress(s, inc);
    var a, acts := ActOf(s, inc), Sweep(RestAfter(s, inc), IncAfter(s, inc)).acts;
    LinesCons(a, acts);
    ActsEventsCons(a, acts, inc.side, own, ts);
  }

  lemma TurnKeeps(s: seq<OrderRec>, inc: OrderRec)
    requires AllSound(s) && !Stops(s, inc) && inc.rem <= inc.qty
    ensures var inc' := IncAfter(s, inc);
      && inc'.side == inc.side && inc'.id == inc.id && inc'.qty == inc.qty && inc'.rem <= inc'.qty
      && (if inc'.rem > 0 then inc'.rem else 0) <= inc.rem
      && (inc'.rem < inc.rem || |RestAfter(s, inc)| < |s|)
  {
  }

  lemma {:induction false} SweepKnown(s: seq<OrderRec>, inc: OrderRec, qs: seq<Request>)
    requires AllSound(s) && AllKnown(qs, s) && Known(qs, inc)
    ensures AllKnown(qs, Sweep(s, inc).rest) && Known(qs, Sweep(s, inc).inc)
    decreases if inc.rem > 0 then inc.rem else 0, |s|
  {
    hide Known, AllKnown, RestAfter, IncAfter;
    if !Stops(s, inc) {
      Progress(s, inc);
      TurnKnown(s, inc, qs);
      SweepKnown(RestAfter(s, inc), IncAfter(s, inc), qs);
    }
  }

  lemma ToldGrouped(out: seq<Event>, a: seq<Event>, b: seq<Event>, ls: seq<TradeLine>, l: seq<TradeLine>,
                    l': seq<TradeLine>, qs: seq<Request>)
    requires Told(out + a + b, ls + l + l', qs)
    ensures Told(out + (a + b), ls + (l + l'), qs)
  {
    hide Told;
    assert out + (a + b) == out + a + b && ls + (l + l') == ls + l + l';
  }

  lemma {:induction false} SweepTold(out: seq<Event>, lines: seq<TradeLine>, s: seq<OrderRec>, inc: OrderRec, own: int,
                                     ts: nat, qs: seq<Request>)
    requires AllSound(s) && SideInv(inc.side.Opposite(), s) && inc.rem <= inc.qty
    requires Told(out, lines, qs) && AllKnown(qs, s) && Known(qs, inc)
    ensures Told(out + ActsEvents(Sweep(s, inc).acts, inc.side, own, ts), lines + ActsTrades(Sweep(s, inc).acts), qs)
    decreases if inc.rem > 0 then inc.rem else 0, |s|
  {
    hide ActEvents, ActOf, Told, Known, AllKnown, SideInv, AllSound, RestAfter, IncAfter;
    if Stops(s, inc) {
      assert Sweep(s, inc).acts == [];
      assert out + [] == out && lines + [] == lines;
    } else {
      SweepUnfold(s, inc, own, ts);
      TurnKeeps(s, inc);
      assert inc.rem > 0;
      TurnTail(inc.side.Opposite(), s, inc);
      TurnKnown(s, inc, qs);
      TurnTold(out, lines, s, inc, own, ts, qs);
      hide Stops, ActsEvents, ActsTrades, Sweep;
      var a, t, inc' := ActOf(s, inc), RestAfter(s, inc), IncAfter(s, inc);
      var es, acts := ActEvents(a, inc.side, own, ts), Sweep(t, inc').acts;
      SweepTold(out + es, lines + ActsTrades([a]), t, inc', own, ts, qs);
      ToldGrouped(out, es, ActsEvents(acts, inc.side, own, ts), lines, ActsTrades([a]), ActsTrades(acts), qs);
    }
  }

  lemma SoundOf(side: Side, s: seq<OrderRec>)
    requires SideInv(side, s)
    ensures AllSound(s)
  {
  }

  // ----- one request

  ghost predicate BookKnown(qs: seq<Request>, b: Book) {
    AllKnown(qs, b.bids) && AllKnown(qs, b.asks)
  }

  lemma KnownOf(qs: seq<Request>, b: Book, side: Side)
    ensures BookKnown(qs, b) <==> AllKnown(qs, b.Of(side)) && AllKnown(qs, b.Of(side.Opposite()))
  {
  }

  lemma {:induction false} PlaceKnown(qs: seq<Request>, s: seq<OrderRec>, r: OrderRec)
    requires AllKnown(qs, s) && Known(qs, r)
    ensures AllKnown(qs, Place(s, r))
  {
    hide Known;
    if s != [] && Ahead(r.side, s[0].price, r.price) {
      PlaceKnown(qs, s[1..], r);
    }
  }

  lemma {:induction false} RemoveKnown(qs: seq<Request>, s: seq<OrderRec>, id: nat)
    requires AllKnown(qs, s)
    ensures AllKnown(qs, RemoveId(s, id))
  {
    hide Known;
    if s != [] {
      RemoveKnown(qs, s[1..], id);
    }
  }

  lemma ReplaceKnown(qs: seq<Request>, s: seq<OrderRec>, r: OrderRec)
    requires AllKnown(qs, s) && Known(qs, r)
    ensures AllKnown(qs, ReplaceId(s, r))
  {
    hide Known;
    ReplaceShape(s, r);
  }

  lemma BookKnownMore(qs: seq<Request>, q: Request, b: Book)
    requires BookKnown(qs, b)
    ensures BookKnown(qs + [q], b)
  {
    hide Known;
    forall i | 0 <= i < |b.bids| ensures Known(qs + [q], b.bids[i]) {
      KnownMore(qs, q, b.bids[i]);
    }
    forall i | 0 <= i < |b.asks| ensures Known(qs + [q], b.asks[i]) {
      KnownMore(qs, q, b.asks[i]);
    }
  }

  lemma NewKnown(qs: seq<Request>, b: Book, r: OrderRec)
    requires AllSound(b.Of(r.side.Opposite())) && BookKnown(qs, b) && Known(qs, r)
    ensures BookKnown(qs, NewBook(b, r)) && Known(qs, Closing(Match(b, r).inc))
  {
    hide Known, AllKnown, Sweep;
    var m := Match(b, r);
    var final := Closing(m.inc);
    SweepKnown(b.Of(r.side.Opposite()), r, qs);
    SweepExit(b.Of(r.side.Opposite()), r);
    KnownSame(qs, r, final);
    PlaceKnown(qs, b.Of(r.side), final);
  }

  lemma ToldClosing(out: seq<Event>, lines: seq<TradeLine>, b: Book, r: OrderRec, qs: seq<Request>)
    requires AllSound(b.Of(r.side.Opposite())) && BookKnown(qs, b) && Known(qs, r) && Told(out, lines, qs)
    ensures Told(out + ClosingEvents(b, r), lines, qs)
  {
    hide Known, AllKnown, Sweep, Told, NewBook, Belongs;
    NewKnown(qs, b, r);
    var es := ClosingEvents(b, r);
    KnownBelongs(qs, Closing(Match(b, r).inc));
    if es == [] {
      assert out + es == out;
    } else {
      assert es == [es[0]];
      ToldOne(out, lines, qs, es[0]);
    }
  }

  function Announced(r: OrderRec, replacing: bool): seq<Event> {
    if replacing then [] else [DbPlain(DbKind.Accepted, r, r.ts)]
  }

  function Middle(b: Book, r: OrderRec): seq<Event>
    requires AllSound(b.Of(r.side.Opposite()))
  {
    ActsEvents(Match(b, r).acts, r.side, Front(b.Of(r.side)), r.ts)
  }

  lemma NewParts(out: seq<Event>, b: Book, r: OrderRec, replacing: bool)
    requires AllSound(b.Of(r.side.Opposite()))
    ensures out + NewEvents(b, r, replacing) == out + Announced(r, replacing) + Middle(b, r) + ClosingEvents(b, r)
  {
    hide ActsEvents, ClosingEvents, Match;
  }

  lemma ToldAnnounced(out: seq<Event>, lines: seq<TradeLine>, r: OrderRec, replacing: bool, qs: seq<Request>)
    requires Known(qs, r) && Told(out, lines, qs)
    ensures Told(out + Announced(r, replacing), lines, qs)
  {
    hide Known, Told;
    if replacing {
      assert out + [] == out;
    } else {
      KnownSame(qs, r, Stamped(r, r.ts));
      ToldOne(out, lines, qs, DbPlain(DbKind.Accepted, r, r.ts));
    }
  }

  lemma NewTold(out: seq<Event>, lines: seq<TradeLine>, b: Book, r: OrderRec, replacing: bool, qs: seq<Request>)
    requires Inv(b) && Untouched(r) && BookKnown(qs, b) && Known(qs, r) && Told(out, lines, qs)
    ensures AllSound(b.Of(r.side.Opposite()))
    ensures Told(out + NewEvents(b, r, replacing), lines + ActsTrades(Match(b, r).acts), qs)
  {
    InvOf(b, r.side.Opposite());
    hide Inv, SideInv, AllSound, Known, AllKnown, Sweep, Told, ActsEvents, ActsTrades, ClosingEvents, NewEvents,
         Announced;
    var start := out + Announced(r, replacing);
    ToldAnnounced(out, lines, r, replacing, qs);
    SweepTold(start, lines, b.Of(r.side.Opposite()), r, Front(b.Of(r.side)), r.ts, qs);
    ToldClosing(start + Middle(b, r), lines + ActsTrades(Match(b, r).acts), b, r, qs);
    NewParts(out, b, r, replacing);
  }

  lemma ToldModified(out: seq<Event>, lines: seq<TradeLine>, p: OrderRec, ts: nat, qty: int, qs: seq<Request>)
    requires Told(out, lines, qs) && Known(qs, p)
    ensures Told(out + [ModifyAck(p.id, p.user, p.rem, p.state, ts),
                        Db(DbEvent(DbKind.Modified, Stamped(p, ts), 0, qty, 0, 0))], lines, qs)
  {
    hide Known, Told, Belongs;
    var ack := ModifyAck(p.id, p.user, p.rem, p.state, ts);
    var db := Db(DbEvent(DbKind.Modified, Stamped(p, ts), 0, qty, 0, 0));
    KnownBelongs(qs, p);
    KnownSame(qs, p, Stamped(p, ts));
    ToldOne(out, lines, qs, ack);
    ToldOne(out + [ack], lines, qs, db);
    assert out + [ack] + [db] == out + [ack, db];
  }

  /** Events, trade lines and book after a step, all in terms of the requests so far. */
  ghost predicate TellsAll(e: Engine, qs: seq<Request>) {
    Told(e.out, e.trades, qs) && BookKnown(qs, e.book)
  }

  lemma FoundKnown(qs: seq<Request>, b: Book, id: nat)
    requires BookKnown(qs, b) && Lookup(b, id).Some?
    ensures Known(qs, Lookup(b, id).value) && Lookup(b, id).value.id == id
  {
    hide Known;
    FindNone(b.All(), id);
    var r := Lookup(b, id).value;
    var i :| 0 <= i < |b.All()| && b.All()[i] == r;
    assert if i < |b.bids| then r == b.bids[i] else r == b.asks[i - |b.bids|];
  }

  lemma AddTold(e: Engine, q: Request, qs: seq<Request>)
    requires Inv(e.book) && Accepts(e.book, q.cmd) && q.cmd.Add? && TellsAll(e, qs)
    ensures TellsAll(Step(e, q, false), qs + [q])
  {
    hide Inv, Known, AllKnown, Told, NewBook, NewEvents, ActsTrades;
    var r, qs' := q.Entering(), qs + [q];
    ToldMore(e.out, e.trades, qs, q);
    BookKnownMore(qs, q, e.book);
    assert Known(qs', r) by {
      Newest(qs, q, r);
    }
    if !Full(e.book) {
      NewTold(e.out, e.trades, e.book, r, false, qs');
      NewKnown(qs', e.book, r);
    }
  }

  lemma Newest(qs: seq<Request>, q: Request, r: OrderRec)
    requires q.cmd.Add? && r == q.Entering()
    ensures Known(qs + [q], r)
  {
    assert (qs + [q])[|qs|] == q && EntersAs(q.cmd, r) && AsksFor(q.cmd, r);
  }

  /** A request for other terms of a known order makes it known with those. */
  lemma Restates(qs: seq<Request>, q: Request, r: OrderRec, p: OrderRec)
    requires Known(qs, r) && q.cmd.Modify? && AsksFor(q.cmd, p)
    requires p.id == r.id && p.user == r.user && p.side == r.side && p.kind == r.kind
    ensures Known(qs + [q], p)
  {
    var qs' := qs + [q];
    var i :| 0 <= i < |qs| && EntersAs(qs[i].cmd, r);
    assert EntersAs(qs'[i].cmd, p) && AsksFor(qs'[|qs|].cmd, p);
  }

  lemma CancelTold(out: seq<Event>, lines: seq<TradeLine>, b: Book, r: OrderRec, ts: nat, qs: seq<Request>)
    requires Told(out, lines, qs) && BookKnown(qs, b) && Known(qs, r)
    ensures Told(out + CancelEvents(b, r, ts), lines, qs) && BookKnown(qs, Without(b, r))
  {
    hide Known, AllKnown, Told;
    ToldCancel(out, lines, qs, Quote(Without(b, r), ts), r, r.state, ts);
    RemoveKnown(qs, b.Of(r.side), r.id);
  }

  lemma CutTold(out: seq<Event>, lines: seq<TradeLine>, b: Book, r: OrderRec, q: Request, qs: seq<Request>)
    requires Told(out, lines, qs) && BookKnown(qs, b) && Known(qs, r)
    requires q.cmd.Modify? && q.cmd.id == r.id && q.cmd.price == r.price
    ensures Told(out + ReducedEvents(b, r, q.cmd.qty, q.now), lines, qs + [q])
    ensures BookKnown(qs + [q], ReducedBook(b, r, q.cmd.qty))
  {
    hide Known, AllKnown, Told;
    var p, qs', es := Shrink(r, q.cmd.qty), qs + [q], ReducedEvents(b, r, q.cmd.qty, q.now);
    ToldMore(out, lines, qs, q);
    BookKnownMore(qs, q, b);
    Restates(qs, q, r, p);
    RemoveKnown(qs', b.Of(r.side), r.id);
    ReplaceKnown(qs', b.Of(r.side), p);
    ToldOne(out, lines, qs', es[0]);
    if p.state.Filled? {
      assert es == [es[0]];
    } else {
      ToldModified(out + [es[0]], lines, p, q.now, -(r.qty - q.cmd.qty), qs');
      assert out + es == out + [es[0]] + [es[1], es[2]];
    }
  }

  lemma AnewTold(e: Engine, q: Request, r: OrderRec, qs: seq<Request>)
    requires Inv(e.book) && q.cmd.Modify? && Accepts(e.book, q.cmd) && TellsAll(e, qs)
    requires Lookup(e.book, q.cmd.id) == Some(r) && !(q.cmd.price == r.price && q.cmd.qty < r.qty)
    ensures TellsAll(Step(e, q, false), qs + [q])
  {
    var b, qs', p := e.book, qs + [q], Replacement(r, q.cmd.price, q.cmd.qty, q.now);
    var gone := Without(b, r);
    Found(b, q.cmd.id);
    TakenOut(b, r);
    ReplacedLines(e, q, r, p);
    FoundKnown(qs, b, q.cmd.id);
    hide *;
    ToldMore(e.out, e.trades, qs, q);
    BookKnownMore(qs, q, b);
    KnownMore(qs, q, r);
    Restates(qs, q, r, p);
    CancelTold(e.out, e.trades, b, r, q.now, qs');
    NewTold(e.out + CancelEvents(b, r, q.now), e.trades, gone, p, true, qs');
    NewKnown(qs', gone, p);
    ToldPlaced(e.out + CancelEvents(b, r, q.now) + NewEvents(gone, p, true),
               e.trades + ActsTrades(Match(gone, p).acts), NewBook(gone, p), p.id, q.now, qs');
    Assembled(e.out, CancelEvents(b, r, q.now), NewEvents(gone, p, true), PlacedEvents(NewBook(gone, p), p.id, q.now));
  }

  lemma Assembled(out: seq<Event>, a: seq<Event>, b: seq<Event>, c: seq<Event>)
    ensures out + (a + b + c) == out + a + b + c
  {
  }

  lemma ToldPlaced(out: seq<Event>, lines: seq<TradeLine>, b: Book, id: nat, ts: nat, qs: seq<Request>)
    requires Told(out, lines, qs) && BookKnown(qs, b)
    ensures Told(out + PlacedEvents(b, id, ts), lines, qs)
  {
    hide Known, AllKnown, Told, Lookup;
    if Lookup(b, id).Some? {
      FoundKnown(qs, b, id);
      ToldModified(out, lines, Lookup(b, id).value, ts, Lookup(b, id).value.rem, qs);
    } else {
      assert out + [] == out;
    }
  }

  lemma ReplacedLines(e: Engine, q: Request, r: OrderRec, p: OrderRec)
    requires q.cmd.Modify? && Accepts(e.book, q.cmd) && Lookup(e.book, q.cmd.id) == Some(r) && r.id == q.cmd.id
    requires !(q.cmd.price == r.price && q.cmd.qty < r.qty) && !r.state.Filled? && !Full(Without(e.book, r))
    requires p == Replacement(r, q.cmd.price, q.cmd.qty, q.now)
    ensures AllSound(Without(e.book, r).Of(p.side.Opposite()))
    ensures Step(e, q, false).book == NewBook(Without(e.book, r), p)
    ensures Step(e, q, false).trades == e.trades + ActsTrades(Match(Without(e.book, r), p).acts)
    ensures Step(e, q, false).out ==
      e.out + (CancelEvents(e.book, r, q.now) + NewEvents(Without(e.book, r), p, true) +
               PlacedEvents(NewBook(Without(e.book, r), p), p.id, q.now))
  {
    hide NewBook, NewEvents, CancelEvents, PlacedEvents, RemoveId, ActsTrades;
    RemoveKeepsSound(e.book.Of(r.side), r.id);
  }

  lemma StepTold(e: Engine, q: Request, qs: seq<Request>)
    requires Inv(e.book) && Accepts(e.book, q.cmd) && TellsAll(e, qs)
    ensures TellsAll(Step(e, q, false), qs + [q])
  {
    if q.cmd.Add? {
      AddTold(e, q, qs);
    } else {
      hide Inv, Known, AllKnown, Told, CancelEvents, ReducedEvents, ReducedBook, Without, Replaced;
      ToldMore(e.out, e.trades, qs, q);
      BookKnownMore(qs, q, e.book);
      if Lookup(e.book, q.cmd.id).Some? {
        var r := Lookup(e.book, q.cmd.id).value;
        FoundKnown(qs, e.book, q.cmd.id);
        KnownMore(qs, q, r);
        if q.cmd.Cancel? {
          CancelTold(e.out, e.trades, e.book, r, q.now, qs + [q]);
        } else if q.cmd.price == r.price && q.cmd.qty < r.qty {
          CutTold(e.out, e.trades, e.book, r, q, qs);
        } else {
          AnewTold(e, q, r, qs);
        }
      }
    }
  }

  /** After every lawful run: each acknowledgement and notice is its order's user's, each trade is told alike
      by two database fills, two notices and a print, and the k-th print is of the k-th line of the trade file. */
  lemma {:induction false} RunTold(qs: seq<Request>)
    requires Lawful(qs)
    ensures Ready(EMPTY, qs, false)
    ensures Told(Run(EMPTY, qs, false).out, Run(EMPTY, qs, false).trades, qs)
    ensures BookKnown(qs, Run(EMPTY, qs, false).book)
  {
    hide Inv, Step, Accepts, Known;
    RunInv(qs, false);
    if qs != [] {
      var init := qs[..|qs| - 1];
      assert forall i :: 0 <= i < |init| ==> init[i] == qs[i];
      RunInv(init, false);
      RunTold(init);
      StepTold(Run(EMPTY, init, false), qs[|qs| - 1], init);
      assert init + [qs[|qs| - 1]] == qs;
    }
  }

  // ----- single notices and prints

  lemma DealNotice(es: seq<Event>, line: TradeLine, qs: seq<Request>, j: nat)
    requires Deal(es, line, qs) && j < 5 && es[j].OrderFill?
    ensures Belongs(qs, es[j].id, es[j].user)
    ensures j >= 2 && es[j - 2].Db? && es[j - 2].event.kind.Filled? && Notifies(es[j], es[j - 2].event)
  {
    hide Known, Belongs;
    KnownBelongs(qs, es[0].event.order);
    KnownBelongs(qs, es[1].event.order);
  }

  lemma SingleNoNotice(out: seq<Event>, qs: seq<Request>)
    requires out != [] && Single(out, qs)
    ensures !out[|out| - 1].OrderFill?
  {
  }

  /** Wherever a notice stands, it is its order's user's, and says what the database fill of that order says. */
  lemma {:induction false} NoticeRight(out: seq<Event>, lines: seq<TradeLine>, qs: seq<Request>, i: nat)
    requires Told(out, lines, qs) && i < |out| && out[i].OrderFill?
    ensures Belongs(qs, out[i].id, out[i].user)
    ensures i >= 2 && out[i - 2].Db? && out[i - 2].event.kind.Filled? && Notifies(out[i], out[i - 2].event)
    decreases |out|
  {
    hide Belongs, Notifies, Deal, Single;
    var n := |out| - 1;
    if !out[n].TradePrint? {
      SingleNoNotice(out, qs);
      assert i < n;
      NoticeRight(out[..n], lines, qs, i);
    } else if i < n - 4 {
      NoticeRight(out[..n - 4], lines[..|lines| - 1], qs, i);
    } else {
      NoticeInDeal(out, lines[|lines| - 1], qs, i);
    }
  }

  lemma NoticeInDeal(out: seq<Event>, line: TradeLine, qs: seq<Request>, i: nat)
    requires |out| >= 5 && Deal(out[|out| - 5..], line, qs) && |out| - 5 <= i < |out| && out[i].OrderFill?
    ensures Belongs(qs, out[i].id, out[i].user)
    ensures i >= 2 && out[i - 2].Db? && out[i - 2].event.kind.Filled? && Notifies(out[i], out[i - 2].event)
  {
    hide Belongs, Notifies, Deal;
    var es, j := out[|out| - 5..], i - (|out| - 5);
    assert es[j] == out[i];
    DealNotice(es, line, qs, j);
    assert es[j - 2] == out[i - 2];
  }

  function Prints(out: seq<Event>): seq<Event> {
    if out == [] then []
    else Prints(out[..|out| - 1]) + if out[|out| - 1].TradePrint? then [out[|out| - 1]] else []
  }

  lemma {:induction false} NoPrints(a: seq<Event>, b: seq<Event>)
    requires forall i :: 0 <= i < |b| ==> !b[i].TradePrint?
    ensures Prints(a + b) == Prints(a)
  {
    if b == [] {
      assert a + b == a;
    } else {
      NoPrints(a, b[..|b| - 1]);
      assert (a + b)[..|a + b| - 1] == a + b[..|b| - 1];
    }
  }

  /** The tape and the trade file agree, print by line. */
  lemma {:induction false} PrintsAreLines(out: seq<Event>, lines: seq<TradeLine>, qs: seq<Request>)
    requires Told(out, lines, qs)
    ensures |Prints(out)| == |lines|
    ensures forall k :: 0 <= k < |lines| ==>
      Prints(out)[k].TradePrint? && Prints(out)[k].price == lines[k].price && Prints(out)[k].qty == lines[k].qty
    decreases |out|
  {
    hide Known;
    if out != [] {
      var n := |out| - 1;
      if out[n].TradePrint? {
        var es := out[n - 4..];
        PrintsAreLines(out[..n - 4], lines[..|lines| - 1], qs);
        NoPrints(out[..n - 4], es[..4]);
        assert out[..n] == out[..n - 4] + es[..4] && es[4] == out[n];
      } else {
        PrintsAreLines(out[..n], lines, qs);
      }
    }
  }

  // ----- an order's fill notices add up

  /** What the notices of an id report since it was last acknowledged cancelled. */
  function FilledSince(out: seq<Event>, id: nat): int {
    if out == [] then 0
    else
      var last, before := out[|out| - 1], out[..|out| - 1];
      if last.CancelAck? && last.id == id then 0
      else FilledSince(before, id) + if last.OrderFill? && last.id == id then last.qty else 0
  }

  /** Up to the notice at i, what its order has been filled by and what is left of it are its quantity, as the
      database fill says it. */
  predicate Sums(out: seq<Event>, i: nat)
    requires i < |out| && out[i].OrderFill?
  {
    && i >= 2 && out[i - 2].Db? && out[i - 2].event.order.id == out[i].id
    && FilledSince(out[..i + 1], out[i].id) + out[i].rem == out[i - 2].event.order.qty
  }

  ghost predicate AllSum(out: seq<Event>) {
    forall i :: 0 <= i < |out| && out[i].OrderFill? ==> Sums(out, i)
  }

  /** And of each order standing in s, what it has been filled by is what it is no longer open for. */
  ghost predicate Tally(out: seq<Event>, s: seq<OrderRec>) {
    forall i :: 0 <= i < |s| ==> Filled(out, s[i])
  }

  predicate Filled(out: seq<Event>, r: OrderRec) {
    FilledSince(out, r.id) == r.qty - r.rem
  }

  /** No event reports a fill of the id or its cancellation. */
  predicate Spares(es: seq<Event>, id: nat) {
    forall i :: 0 <= i < |es| && (es[i].OrderFill? || es[i].CancelAck?) ==> es[i].id != id
  }

  lemma {:induction false} SinceSpared(out: seq<Event>, es: seq<Event>, id: nat)
    requires Spares(es, id)
    ensures FilledSince(out + es, id) == FilledSince(out, id)
  {
    if es == [] {
      assert out + es == out;
    } else {
      SinceSpared(out, es[..|es| - 1], id);
      assert (out + es)[..|out + es| - 1] == out + es[..|es| - 1];
    }
  }

  lemma SinceOne(out: seq<Event>, ev: Event, id: nat)
    ensures FilledSince(out + [ev], id) ==
      if ev.CancelAck? && ev.id == id then 0
      else FilledSince(out, id) + if ev.OrderFill? && ev.id == id then ev.qty else 0
  {
    assert (out + [ev])[..|out|] == out;
  }

  /** Events without a notice. */
  lemma SumsQuiet(out: seq<Event>, es: seq<Event>)
    requires AllSum(out) && forall i :: 0 <= i < |es| ==> !es[i].OrderFill?
    ensures AllSum(out + es)
  {
    forall i | 0 <= i < |out + es| && (out + es)[i].OrderFill? ensures Sums(out + es, i) {
      SumsEarlier(out, es, i);
    }
  }

  lemma SumsEarlier(out: seq<Event>, es: seq<Event>, i: nat)
    requires AllSum(out) && i < |out| && out[i].OrderFill?
    ensures Sums(out + es, i)
  {
    assert Sums(out, i);
    assert (out + es)[..i + 1] == out[..i + 1];
  }

  predicate TradeShaped(es: seq<Event>) {
    |es| == 5 && es[0].Db? && es[1].Db? && es[2].OrderFill? && es[3].OrderFill? && es[4].TradePrint?
  }

  function FilledBy(ev: Event, id: nat): int {
    if ev.OrderFill? && ev.id == id then ev.qty else 0
  }

  lemma SinceTrade(out: seq<Event>, es: seq<Event>, id: nat)
    requires TradeShaped(es)
    ensures FilledSince((out + es)[..|out| + 3], id) == FilledSince(out, id) + FilledBy(es[2], id)
    ensures FilledSince((out + es)[..|out| + 4], id) == FilledSince(out, id) + FilledBy(es[2], id) + FilledBy(es[3], id)
    ensures FilledSince(out + es, id) == FilledSince(out, id) + FilledBy(es[2], id) + FilledBy(es[3], id)
  {
    hide FilledSince;
    var out2, all := out + es[..2], out + es;
    SinceSpared(out, es[..2], id);
    SinceOne(out2, es[2], id);
    SinceOne(out2 + [es[2]], es[3], id);
    SinceOne(out2 + [es[2]] + [es[3]], es[4], id);
    assert all == out2 + [es[2]] + [es[3]] + [es[4]];
    assert all[..|out| + 3] == out2 + [es[2]] && all[..|out| + 4] == out2 + [es[2]] + [es[3]];
  }

  /** What two fills and a print add. */
  lemma TradeSums(out: seq<Event>, es: seq<Event>, g: OrderRec, r: OrderRec, qty: int)
    requires TradeShaped(es)
    requires es[0].event.order.id == es[2].id == g.id && es[0].event.order.qty == g.qty && es[2].rem == g.rem
    requires es[1].event.order.id == es[3].id == r.id && es[1].event.order.qty == r.qty && es[3].rem == r.rem
    requires es[2].qty == es[3].qty == qty && g.id != r.id && AllSum(out)
    requires FilledSince(out, g.id) + qty == g.qty - g.rem && FilledSince(out, r.id) + qty == r.qty - r.rem
    ensures AllSum(out + es) && Filled(out + es, g) && Filled(out + es, r)
  {
    hide Sums, FilledSince;
    var all := out + es;
    SinceTrade(out, es, g.id);
    SinceTrade(out, es, r.id);
    TwoNotices(all, |out|);
    forall i | 0 <= i < |all| && all[i].OrderFill? ensures Sums(all, i) {
      if i < |out| {
        SumsEarlier(out, es, i);
      }
    }
  }

  lemma TwoNotices(all: seq<Event>, n: nat)
    requires n + 5 == |all| && all[n].Db? && all[n + 1].Db? && all[n + 2].OrderFill? && all[n + 3].OrderFill?
    requires all[n].event.order.id == all[n + 2].id && all[n + 1].event.order.id == all[n + 3].id
    requires FilledSince(all[..n + 3], all[n + 2].id) + all[n + 2].rem == all[n].event.order.qty
    requires FilledSince(all[..n + 4], all[n + 3].id) + all[n + 3].rem == all[n + 1].event.order.qty
    ensures Sums(all, n + 2) && Sums(all, n + 3)
  {
  }

  lemma TallySpared(out: seq<Event>, es: seq<Event>, s: seq<OrderRec>)
    requires Tally(out, s) && forall i :: 0 <= i < |s| ==> Spares(es, s[i].id)
    ensures Tally(out + es, s)
  {
    hide Spares, FilledSince;
    forall i | 0 <= i < |s| ensures Filled(out + es, s[i]) {
      assert Filled(out, s[i]);
      SinceSpared(out, es, s[i].id);
    }
  }

  // ----- a match

  lemma ActSpares(a: Act, side: Side, own: int, ts: nat, id: nat)
    requires a.resting.id != id && (a.Fill? ==> a.aggressor.id != id)
    ensures Spares(ActEvents(a, side, own, ts), id)
  {
  }

  /** A cancellation on contact. */
  lemma ContactSums(out: seq<Event>, s: seq<OrderRec>, inc: OrderRec, own: int, ts: nat)
    requires SideInv(inc.side.Opposite(), s) && s != [] && s[0].user == inc.user && !HasId(s, inc.id)
    requires Tally(out, s) && AllSum(out) && Filled(out, inc)
    ensures var out' := out + ActEvents(ActOf(s, inc), inc.side, own, ts);
      AllSum(out') && Tally(out', s[1..]) && Filled(out', inc)
  {
    hide FilledSince, Sums, Spares;
    var a := ActOf(s, inc);
    var es := ActEvents(a, inc.side, own, ts);
    assert s[0].id != inc.id;
    SumsQuiet(out, es);
    ActSpares(a, inc.side, own, ts, inc.id);
    SinceSpared(out, es, inc.id);
    forall i | 0 <= i < |s[1..]| ensures Spares(es, s[1..][i].id) {
      ActSpares(a, inc.side, own, ts, s[1..][i].id);
    }
    TallySpared(out, es, s[1..]);
  }

  lemma TradedSums(out: seq<Event>, s: seq<OrderRec>, inc: OrderRec, own: int, ts: nat)
    requires SideInv(inc.side.Opposite(), s) && !Stops(s, inc) && s[0].user != inc.user && !HasId(s, inc.id)
    requires Tally(out, s) && AllSum(out) && Filled(out, inc)
    ensures var out' := out + ActEvents(ActOf(s, inc), inc.side, own, ts);
      AllSum(out') && Tally(out', s[1..]) && Filled(out', IncAfter(s, inc)) && Filled(out', ActOf(s, inc).resting)
  {
    hide FilledSince, Sums, Spares, AllSum;
    var a := ActOf(s, inc);
    var es := ActEvents(a, inc.side, own, ts);
    assert s[0].id != inc.id && Filled(out, s[0]);
    assert AllSum(out);
    TradeSums(out, es, a.aggressor, a.resting, a.qty);
    forall i | 0 <= i < |s[1..]| ensures Spares(es, s[1..][i].id) {
      assert s[1..][i] == s[i + 1] && s[i + 1].id != s[0].id && s[i + 1].id != inc.id;
      ActSpares(a, inc.side, own, ts, s[1..][i].id);
    }
    TallySpared(out, es, s[1..]);
  }

  lemma TurnSums(out: seq<Event>, s: seq<OrderRec>, inc: OrderRec, own: int, ts: nat)
    requires SideInv(inc.side.Opposite(), s) && !Stops(s, inc) && !HasId(s, inc.id)
    requires Tally(out, s) && AllSum(out) && Filled(out, inc)
    ensures var out' := out + ActEvents(ActOf(s, inc), inc.side, own, ts);
      AllSum(out') && Tally(out', RestAfter(s, inc)) && Filled(out', IncAfter(s, inc))
    ensures !HasId(RestAfter(s, inc), inc.id)
  {
    hide FilledSince, Sums, AllSum, ActEvents, SideInv, Filled;
    RestIds(s, inc);
    hide HasId;
    if s[0].user == inc.user {
      ContactSums(out, s, inc, own, ts);
    } else {
      TradedSums(out, s, inc, own, ts);
    }
  }

  lemma {:induction false} SweepSums(out: seq<Event>, s: seq<OrderRec>, inc: OrderRec, own: int, ts: nat)
    requires AllSound(s) && SideInv(inc.side.Opposite(), s) && !HasId(s, inc.id) && inc.rem <= inc.qty
    requires Tally(out, s) && AllSum(out) && Filled(out, inc)
    ensures var m := Sweep(s, inc);
      var out' := out + ActsEvents(m.acts, inc.side, own, ts);
      AllSum(out') && Tally(out', m.rest) && Filled(out', m.inc)
    decreases if inc.rem > 0 then inc.rem else 0, |s|
  {
    hide ActEvents, ActOf, SideInv, RestAfter, IncAfter, HasId, Tally, AllSum, Filled;
    if Stops(s, inc) {
      assert Sweep(s, inc).acts == [];
      assert out + [] == out;
    } else {
      SweepUnfold(s, inc, own, ts);
      TurnKeeps(s, inc);
      assert inc.rem > 0;
      TurnTail(inc.side.Opposite(), s, inc);
      TurnSums(out, s, inc, own, ts);
      hide Stops, ActsEvents, Sweep, AllSound;
      var t, inc' := RestAfter(s, inc), IncAfter(s, inc);
      var es := ActEvents(ActOf(s, inc), inc.side, own, ts);
      SweepSums(out + es, t, inc', own, ts);
      Regroup(out, es, ActsEvents(Sweep(t, inc').acts, inc.side, own, ts));
    }
  }

  lemma SparesBoth(a: seq<Event>, b: seq<Event>, id: nat)
    requires Spares(a, id) && Spares(b, id)
    ensures Spares(a + b, id)
  {
  }

  lemma {:induction false} SweepSpares(s: seq<OrderRec>, inc: OrderRec, own: int, ts: nat, id: nat)
    requires AllSound(s) && !HasId(s, id) && id != inc.id && inc.rem <= inc.qty
    ensures Spares(ActsEvents(Sweep(s, inc).acts, inc.side, own, ts), id)
    decreases if inc.rem > 0 then inc.rem else 0, |s|
  {
    if Stops(s, inc) {
      assert Sweep(s, inc).acts == [];
    } else {
      assert s[0].id != id;
      SweepUnfold(s, inc, own, ts);
      TurnKeeps(s, inc);
      assert inc.rem > 0;
      RestIds(s, inc);
      ActSpares(ActOf(s, inc), inc.side, own, ts, id);
      hide ActEvents, ActOf, RestAfter, IncAfter, HasId, Spares, Stops, ActsEvents, Sweep, AllSound;
      SweepSpares(RestAfter(s, inc), IncAfter(s, inc), own, ts, id);
      SparesBoth(ActEvents(ActOf(s, inc), inc.side, own, ts),
                 ActsEvents(Sweep(RestAfter(s, inc), IncAfter(s, inc)).acts, inc.side, own, ts), id);
    }
  }

  // ----- one request

  ghost predicate BookTally(out: seq<Event>, b: Book) {
    Tally(out, b.bids) && Tally(out, b.asks)
  }

  /** Among the orders of a book are no others than those already tallied. */
  lemma TallyFrom(out: seq<Event>, s: seq<OrderRec>, t: seq<OrderRec>)
    requires Tally(out, s) && forall r :: r in t ==> r in s || Filled(out, r)
    ensures Tally(out, t)
  {
    forall i | 0 <= i < |t| ensures Filled(out, t[i]) {
      assert t[i] in t;
      if t[i] in s {
        var j :| 0 <= j < |s| && s[j] == t[i];
        assert Filled(out, s[j]);
      }
    }
  }

  lemma {:induction false} PlaceFrom(s: seq<OrderRec>, r: OrderRec)
    ensures forall x :: x in Place(s, r) ==> x == r || x in s
  {
    if s != [] && Ahead(r.side, s[0].price, r.price) {
      PlaceFrom(s[1..], r);
    }
  }

  lemma {:induction false} RemoveFrom(s: seq<OrderRec>, id: nat)
    ensures forall x :: x in RemoveId(s, id) ==> x in s && x.id != id
  {
    if s != [] {
      RemoveFrom(s[1..], id);
    }
  }

  /** Events without notices, and without cancellations of what stays. */
  lemma QuietSums(out: seq<Event>, es: seq<Event>, b: Book, id: nat)
    requires AllSum(out) && BookTally(out, b) && !HasId(b.All(), id)
    requires forall i :: 0 <= i < |es| ==> !es[i].OrderFill? && (es[i].CancelAck? ==> es[i].id == id)
    ensures AllSum(out + es) && BookTally(out + es, b)
  {
    hide FilledSince, Sums;
    SumsQuiet(out, es);
    HasIdEither(b, id);
    assert forall i :: 0 <= i < |b.bids| ==> b.bids[i].id != id;
    assert forall i :: 0 <= i < |b.asks| ==> b.asks[i].id != id;
    TallySpared(out, es, b.bids);
    TallySpared(out, es, b.asks);
  }

  lemma MatchSums(out: seq<Event>, b: Book, r: OrderRec)
    requires Inv(b) && Untouched(r) && !HasId(b.All(), r.id)
    requires AllSum(out) && BookTally(out, b) && FilledSince(out, r.id) == 0
    ensures AllSound(b.Of(r.side.Opposite()))
    ensures var out', m := out + Middle(b, r), Match(b, r);
      AllSum(out') && Tally(out', m.rest) && Tally(out', b.Of(r.side)) && Filled(out', m.inc)
  {
    InvOf(b, r.side);
    InvOf(b, r.side.Opposite());
    FreshIn(b, r.side, r.id);
    var s, own := b.Of(r.side.Opposite()), b.Of(r.side);
    forall i | 0 <= i < |own| ensures !HasId(s, own[i].id) && own[i].id != r.id {
      assert HasId(own, own[i].id);
    }
    hide Inv, SideInv, Sweep, ActsEvents, AllSum, FilledSince, Spares, HasId, Apart;
    SweepSums(out, s, r, Front(own), r.ts);
    forall i | 0 <= i < |own| ensures Spares(Middle(b, r), own[i].id) {
      SweepSpares(s, r, Front(own), r.ts, own[i].id);
    }
    TallySpared(out, Middle(b, r), own);
  }

  lemma ClosingSums(out: seq<Event>, b: Book, r: OrderRec)
    requires Inv(b) && Untouched(r) && !HasId(b.All(), r.id)
    requires AllSound(b.Of(r.side.Opposite())) && AllSum(out)
    requires Tally(out, Match(b, r).rest) && Tally(out, b.Of(r.side)) && Filled(out, Match(b, r).inc)
    ensures AllSum(out + ClosingEvents(b, r)) && BookTally(out + ClosingEvents(b, r), NewBook(b, r))
  {
    MatchedRest(b, r);
    Closes(b, r);
    FreshIn(b, r.side, r.id);
    var m, own, es := Match(b, r), b.Of(r.side), ClosingEvents(b, r);
    var final, out' := Closing(m.inc), out + es;
    assert forall i :: 0 <= i < |m.rest| ==> m.rest[i].id != r.id;
    assert forall i :: 0 <= i < |own| ==> own[i].id != r.id;
    assert Rests(final) ==> es == [Quote(NewBook(b, r), r.ts)];
    assert !Rests(final) ==> es == [] || (|es| == 1 && es[0].CancelAck? && es[0].id == r.id);
    hide Inv, SideInv, Match, Sums, FilledSince, Closing, NewBook, ClosingEvents, HasId, Apart;
    SumsQuiet(out, es);
    TallySpared(out, es, m.rest);
    TallySpared(out, es, own);
    if Rests(final) {
      SinceSpared(out, es, r.id);
      PlaceFrom(own, final);
      TallyFrom(out', own, Place(own, final));
    }
    SettledTally(out', b, r);
  }

  lemma SettledTally(out: seq<Event>, b: Book, r: OrderRec)
    requires AllSound(b.Of(r.side.Opposite()))
    requires var m, final := Match(b, r), Closing(Match(b, r).inc);
      Tally(out, m.rest) && Tally(out, if Rests(final) then Place(b.Of(r.side), final) else b.Of(r.side))
    ensures BookTally(out, NewBook(b, r))
  {
    hide Tally, Match;
  }

  lemma NewSums(out: seq<Event>, b: Book, r: OrderRec, replacing: bool)
    requires Inv(b) && Untouched(r) && !HasId(b.All(), r.id)
    requires AllSum(out) && BookTally(out, b) && FilledSince(out, r.id) == 0
    ensures AllSound(b.Of(r.side.Opposite()))
    ensures AllSum(out + NewEvents(b, r, replacing)) && BookTally(out + NewEvents(b, r, replacing), NewBook(b, r))
  {
    InvOf(b, r.side.Opposite());
    var es := Announced(r, replacing);
    assert Spares(es, r.id) && forall i :: 0 <= i < |es| ==> !es[i].OrderFill? && !es[i].CancelAck?;
    hide Inv, SideInv, AllSound, Match, AllSum, FilledSince, Tally, Announced, NewEvents, NewBook, ClosingEvents,
         Middle, HasId, Filled, Spares;
    SinceSpared(out, es, r.id);
    QuietSums(out, es, b, r.id);
    MatchSums(out + es, b, r);
    ClosingSums(out + es + Middle(b, r), b, r);
    NewParts(out, b, r, replacing);
  }

  lemma CancelResets(out: seq<Event>, b: Book, r: OrderRec, ts: nat)
    ensures FilledSince(out + CancelEvents(b, r, ts), r.id) == 0
    ensures forall i :: 0 <= i < |CancelEvents(b, r, ts)| ==>
      var ev := CancelEvents(b, r, ts)[i]; !ev.OrderFill? && (ev.CancelAck? ==> ev.id == r.id)
  {
    hide Without, FilledSince;
    var es := CancelEvents(b, r, ts);
    assert out + es == out + [es[0]] + [es[1]] + [es[2]];
    SinceOne(out + [es[0]], es[1], r.id);
    SinceOne(out + [es[0]] + [es[1]], es[2], r.id);
  }

  lemma CancelSums(out: seq<Event>, b: Book, r: OrderRec, ts: nat)
    requires Inv(b) && Lookup(b, r.id) == Some(r) && AllSum(out) && BookTally(out, b)
    ensures var out' := out + CancelEvents(b, r, ts);
      AllSum(out') && BookTally(out', Without(b, r)) && FilledSince(out', r.id) == 0
  {
    TakenOut(b, r);
    RemoveFrom(b.Of(r.side), r.id);
    CancelResets(out, b, r, ts);
    hide Inv, AllSum, Tally, FilledSince, HasId, CancelEvents, Cut;
    TallyFrom(out, b.Of(r.side), Without(b, r).Of(r.side));
    QuietSums(out, CancelEvents(b, r, ts), Without(b, r), r.id);
  }

  /** Reduced in place, an order is filled by as much as before. */
  lemma CutTally(out: seq<Event>, b: Book, r: OrderRec, qty: int)
    requires Inv(b) && Lookup(b, r.id) == Some(r) && BookTally(out, b)
    ensures BookTally(out, ReducedBook(b, r, qty))
  {
    Found(b, r.id);
    RemoveFrom(b.Of(r.side), r.id);
    ReplaceShape(b.Of(r.side), Shrink(r, qty));
    hide Inv, FilledSince, RemoveId;
    var own := b.Of(r.side);
    var k :| 0 <= k < |own| && own[k] == r;
    assert Filled(out, own[k]);
    assert Filled(out, Shrink(r, qty));
    TallyFrom(out, own, ReducedBook(b, r, qty).Of(r.side));
  }

  lemma CutSums(out: seq<Event>, b: Book, r: OrderRec, qty: int, ts: nat)
    requires Inv(b) && Lookup(b, r.id) == Some(r) && AllSum(out) && BookTally(out, b)
    ensures var out' := out + ReducedEvents(b, r, qty, ts);
      AllSum(out') && BookTally(out', ReducedBook(b, r, qty))
  {
    var es, b' := ReducedEvents(b, r, qty, ts), ReducedBook(b, r, qty);
    CutTally(out, b, r, qty);
    hide ReducedBook;
    assert forall i :: 0 <= i < |es| ==> !es[i].OrderFill? && !es[i].CancelAck?;
    hide Sums, FilledSince, ReducedEvents;
    SumsQuiet(out, es);
    TallySpared(out, es, b'.bids);
    TallySpared(out, es, b'.asks);
  }

  lemma PlacedSums(out: seq<Event>, b: Book, id: nat, ts: nat)
    requires AllSum(out) && BookTally(out, b)
    ensures AllSum(out + PlacedEvents(b, id, ts)) && BookTally(out + PlacedEvents(b, id, ts), b)
  {
    var es := PlacedEvents(b, id, ts);
    hide Lookup, Sums, FilledSince;
    assert forall i :: 0 <= i < |es| ==> !es[i].OrderFill? && !es[i].CancelAck?;
    SumsQuiet(out, es);
    TallySpared(out, es, b.bids);
    TallySpared(out, es, b.asks);
  }

  lemma AnewSums(e: Engine, q: Request, r: OrderRec)
    requires Inv(e.book) && q.cmd.Modify? && Accepts(e.book, q.cmd) && AllSum(e.out) && BookTally(e.out, e.book)
    requires Lookup(e.book, q.cmd.id) == Some(r) && !(q.cmd.price == r.price && q.cmd.qty < r.qty)
    ensures AllSum(Step(e, q, false).out) && BookTally(Step(e, q, false).out, Step(e, q, false).book)
  {
    var b, p := e.book, Replacement(r, q.cmd.price, q.cmd.qty, q.now);
    var gone := Without(b, r);
    Found(b, q.cmd.id);
    TakenOut(b, r);
    ReplacedLines(e, q, r, p);
    hide *;
    var b' := NewBook(gone, p);
    var es0, es1, es2 := CancelEvents(b, r, q.now), NewEvents(gone, p, true), PlacedEvents(b', p.id, q.now);
    CancelSums(e.out, b, r, q.now);
    NewSums(e.out + es0, gone, p, true);
    PlacedSums(e.out + es0 + es1, b', p.id, q.now);
    Assembled(e.out, es0, es1, es2);
  }

  lemma StepSums(e: Engine, q: Request)
    requires Inv(e.book) && Accepts(e.book, q.cmd) && AllSum(e.out) && BookTally(e.out, e.book)
    requires q.cmd.Add? ==> FilledSince(e.out, q.cmd.id) == 0
    ensures AllSum(Step(e, q, false).out) && BookTally(Step(e, q, false).out, Step(e, q, false).book)
  {
    hide Inv, Sums, FilledSince, Tally, AllSum, CancelEvents, ReducedEvents, ReducedBook, Without, Replaced, NewBook,
         NewEvents;
    if q.cmd.Add? {
      if !Full(e.book) {
        NewSums(e.out, e.book, q.Entering(), false);
      }
    } else if Lookup(e.book, q.cmd.id).Some? {
      var r := Lookup(e.book, q.cmd.id).value;
      FindNone(e.book.All(), q.cmd.id);
      if q.cmd.Cancel? {
        CancelSums(e.out, e.book, r, q.now);
      } else if q.cmd.price == r.price && q.cmd.qty < r.qty {
        CutSums(e.out, e.book, r, q.cmd.qty, q.now);
      } else {
        AnewSums(e, q, r);
      }
    }
  }

  /** An id that no request entered is told of no fill. */
  lemma {:induction false} NeverFilled(out: seq<Event>, id: nat)
    requires forall i :: 0 <= i < |out| && out[i].OrderFill? ==> out[i].id != id
    ensures FilledSince(out, id) == 0
  {
    if out != [] {
      NeverFilled(out[..|out| - 1], id);
    }
  }

  lemma FreshUnfilled(out: seq<Event>, lines: seq<TradeLine>, qs: seq<Request>, id: nat)
    requires Told(out, lines, qs) && !Entered(qs, id)
    ensures FilledSince(out, id) == 0
  {
    hide Told, FilledSince;
    forall i | 0 <= i < |out| && out[i].OrderFill? ensures out[i].id != id {
      NoticeRight(out, lines, qs, i);
      var j :| 0 <= j < |qs| && qs[j].cmd.Add? && qs[j].cmd.id == out[i].id && qs[j].cmd.user == out[i].user;
    }
    NeverFilled(out, id);
  }

  /** Over every lawful run an order's fill notices, since it was entered or last re-entered, add up to what it has
      been filled by: at each notice with what that leaves of its quantity, and for every order still resting. */
  lemma {:induction false} RunSums(qs: seq<Request>)
    requires Lawful(qs)
    ensures Ready(EMPTY, qs, false)
    ensures AllSum(Run(EMPTY, qs, false).out) && BookTally(Run(EMPTY, qs, false).out, Run(EMPTY, qs, false).book)
  {
    hide Inv, Step, Accepts, Sums, FilledSince, Told;
    RunInv(qs, false);
    if qs != [] {
      var init, q := qs[..|qs| - 1], qs[|qs| - 1];
      assert forall i :: 0 <= i < |init| ==> init[i] == qs[i];
      RunInv(init, false);
      RunTold(init);
      RunSums(init);
      var e := Run(EMPTY, init, false);
      if q.cmd.Add? {
        FreshUnfilled(e.out, e.trades, init, q.cmd.id);
      }
      StepSums(e, q);
    }
  }
}
