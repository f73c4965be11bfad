/**
 What trading does to what a slot owns, available and blocked together: over every run its funds and shares
 change by what the trade file says its orders bought and sold, and by nothing else.
 */
module Wealth {
  import opened CoreTypes
  import opened EngineSpec
  import opened Runs
  import opened BookInvariants
  import opened EventViews
  import opened Balances
  import opened Reservations
  import opened Coverage
  import opened Notices

  /** The request that entered the id. */
  function EntryOf(qs: seq<Request>, id: nat): Option<Cmd> {
    if qs == [] then None
    else
      var c := qs[|qs| - 1].cmd;
      if c.Add? && c.id == id then Some(c) else EntryOf(qs[..|qs| - 1], id)
  }

  /** What slot k receives for a trade of its order: a seller is paid the amount, a buyer pays it. */
  function Gains(qs: seq<Request>, id: nat, k: nat, amount: int): int {
    match EntryOf(qs, id)
    case None => 0
    case Some(c) =>
      if !c.Add? || SlotOf(c.user) != k then 0 else if c.side.Sell? then amount else -amount
  }

  /** What the trades bring slot k in funds, and what they cost it in shares. */
  function Income(lines: seq<TradeLine>, qs: seq<Request>, k: nat): int {
    if lines == [] then 0
    else
      var l := lines[|lines| - 1];
      Income(lines[..|lines| - 1], qs, k)
      + Gains(qs, l.aggressor, k, l.price * l.qty) + Gains(qs, l.resting, k, l.price * l.qty)
  }

  function Sold(lines: seq<TradeLine>, qs: seq<Request>, k: nat): int {
    if lines == [] then 0
    else
      var l := lines[|lines| - 1];
      Sold(lines[..|lines| - 1], qs, k) + Gains(qs, l.aggressor, k, l.qty) + Gains(qs, l.resting, k, l.qty)
  }

  /** No id is entered twice. */
  ghost predicate EnteredOnce(qs: seq<Request>) {
    forall i, j :: 0 <= i < j < |qs| && qs[i].cmd.Add? && qs[j].cmd.Add? ==> qs[i].cmd.id != qs[j].cmd.id
  }

  lemma {:induction false} EntryIs(qs: seq<Request>, r: OrderRec, i: nat)
    requires EnteredOnce(qs) && i < |qs| && EntersAs(qs[i].cmd, r)
    ensures EntryOf(qs, r.id) == Some(qs[i].cmd)
  {
    if i < |qs| - 1 {
      EntryIs(qs[..|qs| - 1], r, i);
    }
  }

  lemma GainsIs(qs: seq<Request>, r: OrderRec, k: nat, amount: int)
    requires EnteredOnce(qs) && Known(qs, r)
    ensures Gains(qs, r.id, k, amount) ==
      if SlotOf(r.user) != k then 0 else if r.side.Sell? then amount else -amount
  {
    var i: nat :| i < |qs| && EntersAs(qs[i].cmd, r);
    EntryIs(qs, r, i);
  }

  // ----- what settling an event changes in total

  /** The totals of p' are those of p and so much more in funds, so much less in shares. */
  predicate Moves(p: Purse, p': Purse, income: int, sold: int) {
    p'.cash.Total() == p.cash.Total() + income && p'.shares.Total() == p.shares.Total() - sold
  }

  lemma NoTradeMoves(p: Purse, k: nat, ev: Event)
    requires ev.Db? ==> !ev.event.kind.Filled?
    ensures Moves(p, ApplyEvent(p, k, ev), 0, 0)
  {
  }

  /** A database fill of a buy moves the totals of both parties; that of the sell beside it, none. */
  lemma FillMoves(p: Purse, k: nat, ev: Event)
    requires ev.Db? && ev.event.kind.Filled? && ev.event.fillQty > 0
    ensures var worth := ev.event.fillPrice * ev.event.fillQty;
      var bought, sold := SlotOf(ev.event.order.user) == k, SlotOf(ev.event.peerUser) == k;
      if ev.event.order.side.Sell? then ApplyEvent(p, k, ev) == p
      else Moves(p, ApplyEvent(p, k, ev), (if sold then worth else 0) - (if bought then worth else 0),
                 (if sold then ev.event.fillQty else 0) - (if bought then ev.event.fillQty else 0))
  {
  }

  lemma DealMoves(p: Purse, k: nat, es: seq<Event>, line: TradeLine, qs: seq<Request>)
    requires Deal(es, line, qs) && EnteredOnce(qs)
    ensures Moves(p, Settle(p, k, es),
                  Gains(qs, line.aggressor, k, line.price * line.qty) +
                  Gains(qs, line.resting, k, line.price * line.qty),
                  Gains(qs, line.aggressor, k, line.qty) + Gains(qs, line.resting, k, line.qty))
  {
    var g, r := es[0].event.order, es[1].event.order;
    GainsIs(qs, g, k, line.price * line.qty);
    GainsIs(qs, r, k, line.price * line.qty);
    GainsIs(qs, g, k, line.qty);
    GainsIs(qs, r, k, line.qty);
    hide Gains, Known, EnteredOnce, ApplyEvent;
    var p1 := ApplyEvent(p, k, es[0]);
    FillMoves(p, k, es[0]);
    FillMoves(p1, k, es[1]);
    SettleNone(ApplyEvent(p1, k, es[1]), k, es[2..]);
    SettleAppend(p, k, es[..2], es[2..]);
    assert es == es[..2] + es[2..] && es[..2] == [es[0]] + [es[1]];
    SettleAppend(p, k, [es[0]], [es[1]]);
    SettleOne(p, k, es[0]);
    SettleOne(p1, k, es[1]);
  }

  /** Settling all that a run emitted moves a slot's totals by its trades. */
  lemma {:induction false} ToldMoves(p: Purse, k: nat, out: seq<Event>, lines: seq<TradeLine>, qs: seq<Request>)
    requires Told(out, lines, qs) && EnteredOnce(qs)
    ensures Moves(p, Settle(p, k, out), Income(lines, qs, k), Sold(lines, qs, k))
    decreases |out|
  {
    hide Gains, Deal, EnteredOnce, ApplyEvent;
    if out != [] {
      var n := |out| - 1;
      if out[n].TradePrint? {
        var before, es := out[..n - 4], out[n - 4..];
        ToldMoves(p, k, before, lines[..|lines| - 1], qs);
        DealMoves(Settle(p, k, before), k, es, lines[|lines| - 1], qs);
        SettleAppend(p, k, before, es);
        assert out == before + es;
      } else {
        ToldMoves(p, k, out[..n], lines, qs);
        NoTradeMoves(Settle(p, k, out[..n]), k, out[n]);
      }
    }
  }

  // ----- whole runs of the exchange

  /** What the events move does not depend on the account. */
  lemma {:induction false} SameMoves(p: Purse, p': Purse, k: nat, es: seq<Event>)
    ensures var s, s' := Settle(p, k, es), Settle(p', k, es);
      && s.cash.Total() - p.cash.Total() == s'.cash.Total() - p'.cash.Total()
      && s.shares.Total() - p.shares.Total() == s'.shares.Total() - p'.shares.Total()
  {
    if es != [] {
      SameMoves(p, p', k, es[..|es| - 1]);
    }
  }

  lemma AdmitMoves(ps: seq<Purse>, c: Cmd, k: nat)
    requires |ps| == MAX_USERS && k < MAX_USERS && Admit(ps, c).Some?
    ensures Moves(ps[k], Admit(ps, c).value[k], 0, 0)
  {
  }

  /** The totals of a slot are its first ones and what settling all events so far would have moved. */
  lemma {:induction false} TotalsOf(x: Exchange, qs: seq<Request>, k: nat)
    requires Opening(x) && Lawful(qs) && k < MAX_USERS
    ensures Receives(x, qs)
    ensures var p, y := x.purses[k], Traded(x, qs);
      && y.purses[k].cash.Total() == Settle(p, k, y.engine.out).cash.Total()
      && y.purses[k].shares.Total() == Settle(p, k, y.engine.out).shares.Total()
    ensures TellsAll(Traded(x, qs).engine, qs)
  {
    hide Inv, Step, Accepts, Settle, Told, BookKnown, ApplyEvent, Opening;
    TradedInv(x, qs);
    assert |x.purses| == MAX_USERS && x.engine == EMPTY by {
      OpensEmpty(x);
    }
    if qs == [] {
      assert Settle(x.purses[k], k, []) == x.purses[k] by {
        SettleNone(x.purses[k], k, []);
      }
      assert Told([], [], qs) && BookKnown(qs, EMPTY.book) by {
        NothingTold(qs);
      }
    } else {
      var init, q := qs[..|qs| - 1], qs[|qs| - 1];
      assert forall i :: 0 <= i < |init| ==> init[i] == qs[i];
      TradedInv(x, init);
      TotalsOf(x, init, k);
      assert init + [q] == qs;
      TradeMoves(Traded(x, init), q, init, x.purses[k], k);
    }
  }

  lemma OpensEmpty(x: Exchange)
    requires Opening(x)
    ensures |x.purses| == MAX_USERS && x.engine == EMPTY
  {
  }

  lemma NothingTold(qs: seq<Request>)
    ensures Told([], [], qs) && BookKnown(qs, EMPTY.book)
  {
  }

  lemma TradeMoves(x: Exchange, q: Request, qs: seq<Request>, p: Purse, k: nat)
    requires |x.purses| == MAX_USERS && k < MAX_USERS && Inv(x.engine.book) && Accepts(x.engine.book, q.cmd)
    requires TellsAll(x.engine, qs)
    requires x.purses[k].cash.Total() == Settle(p, k, x.engine.out).cash.Total()
    requires x.purses[k].shares.Total() == Settle(p, k, x.engine.out).shares.Total()
    ensures var y := Trade(x, q);
      && y.purses[k].cash.Total() == Settle(p, k, y.engine.out).cash.Total()
      && y.purses[k].shares.Total() == Settle(p, k, y.engine.out).shares.Total()
      && TellsAll(y.engine, qs + [q])
  {
    hide Inv, Step, Accepts, Settle, Told, BookKnown, ApplyEvent, Emitted;
    if Admit(x.purses, q.cmd).None? {
      ToldMore(x.engine.out, x.engine.trades, qs, q);
      BookKnownMore(qs, q, x.engine.book);
    } else {
      StepTold(x.engine, q, qs);
      OutGrows(x.engine, q);
      AdmitMoves(x.purses, q.cmd, k);
      var es := Emitted(x.engine, q);
      SettleAppend(p, k, x.engine.out, es);
      SameMoves(Admit(x.purses, q.cmd).value[k], Settle(p, k, x.engine.out), k, es);
    }
  }

  lemma OutGrows(e: Engine, q: Request)
    requires Accepts(e.book, q.cmd)
    ensures Step(e, q, false).out == e.out + Emitted(e, q)
  {
  }

  /** Over every run from an exchange that opens, a slot's funds and shares, available and blocked together,
      have changed by exactly what its orders sold and bought in the trades of the trade file. */
  lemma RunWealth(x: Exchange, qs: seq<Request>, k: nat)
    requires Opening(x) && Lawful(qs) && k < MAX_USERS
    ensures Receives(x, qs)
    ensures var lines := Traded(x, qs).engine.trades;
      Moves(x.purses[k], Traded(x, qs).purses[k], Income(lines, qs, k), Sold(lines, qs, k))
  {
    hide Settle, Told, BookKnown, Income, Sold, Opening;
    assert EnteredOnce(qs);
    hide Lawful, EnteredOnce;
    OpensEmpty(x);
    TotalsOf(x, qs, k);
    var e := Traded(x, qs).engine;
    ToldMoves(x.purses[k], k, e.out, e.trades, qs);
  }
}
