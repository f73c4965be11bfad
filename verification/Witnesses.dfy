/** Short lawful runs on which the exceptions that the theorems single out do occur. */
module Witnesses {
  import opened CoreTypes
  import opened PriceTime
  import opened Sweeps
  import opened EngineSpec
  import opened Runs
  import opened BookInvariants
  import opened Recoveries
  import opened EventViews
  import opened Balances
  import opened Costs
  import opened Reservations
  import opened Coverage

  // ----- every run starts with an offer of five at 10

  const OFFER := Request(Add(1, 7, Sell, Limit, 10, 5, 1), 1)
  const OFFERED := OrderRec(1, 7, Sell, Limit, 10, 5, 5, 1, New)

  lemma OfferRests()
    ensures Accepts(EMPTY.book, OFFER.cmd) && Step(EMPTY, OFFER, false).book == Book([], [OFFERED])
    ensures Ready(EMPTY, [OFFER], false) && Run(EMPTY, [OFFER], false) == Step(EMPTY, OFFER, false)
    ensures Inv(Book([], [OFFERED])) && Lookup(Book([], [OFFERED]), 1) == Some(OFFERED)
  {
    assert EMPTY.book.All() == [];
    assert Step(EMPTY, OFFER, false).book == Book([], [OFFERED]);
    assert Book([], [OFFERED]).All() == [OFFERED];
    hide Step, Accepts;
    RunNone(EMPTY, false);
    RunStep(EMPTY, [], OFFER, false);
    assert [] + [OFFER] == [OFFER];
  }

  /** A run of the offer and one more request. */
  lemma OfferThen(q: Request)
    requires Accepts(Book([], [OFFERED]), q.cmd)
    ensures Ready(EMPTY, [OFFER], false) && Ready(EMPTY, [OFFER, q], false)
    ensures Run(EMPTY, [OFFER], false).book == Book([], [OFFERED])
    ensures Run(EMPTY, [OFFER, q], false) == Step(Run(EMPTY, [OFFER], false), q, false)
    ensures [OFFER, q][..1] == [OFFER]
  {
    hide Step, Accepts, Inv;
    OfferRests();
    RunStep(EMPTY, [OFFER], q, false);
    assert [OFFER] + [q] == [OFFER, q];
  }

  // ----- a modify to quantity 0, which admission lets through

  const TO_ZERO := Request(Cmd.Modify(1, 10, 0), 2)

  /** Cut to nothing, the offer stays at the front of the book, and a buyer who meets it is never done. */
  lemma ZeroModifyBreaks(inc: OrderRec)
    requires inc.side.Buy? && inc.user != 7 && inc.rem > 0 && Crosses(inc, 10) && inc == inc.Restated()
    ensures Ready(EMPTY, [OFFER, TO_ZERO], false)
    ensures var b := Run(EMPTY, [OFFER, TO_ZERO], false).book;
      !Inv(b) && Stalls(b.asks, inc)
  {
    hide Inv;
    OfferRests();
    InvOf(Book([], [OFFERED]), Sell);
    OfferThen(TO_ZERO);
    CutToNothingStays(Book([], [OFFERED]), OFFERED);
    DeadBreaks(ReducedBook(Book([], [OFFERED]), OFFERED, 0));
    assert ReplaceId([OFFERED], Shrink(OFFERED, 0)) == [Shrink(OFFERED, 0)];
  }

  // ----- a replacement that comes to rest

  const REPRICED := Request(Cmd.Modify(1, 11, 5), 2)

  /** Moved to another price, the offer rests live and is gone from what the log rebuilds. */
  lemma RepricedIsLost()
    ensures Lawful([OFFER, REPRICED]) && Timed(OFFER) && Timed(REPRICED) && Ready(EMPTY, [OFFER, REPRICED], false)
    ensures !Replayable([OFFER, REPRICED]) && !AlwaysRebuilds([OFFER, REPRICED])
  {
    hide Inv;
    OfferRests();
    assert Without(Book([], [OFFERED]), OFFERED).bids == [];
    assert LeavesReplacement(Book([], [OFFERED]), REPRICED.cmd);
    hide LeavesReplacement, Step;
    OfferThen(REPRICED);
    RecoveryExact([OFFER, REPRICED]);
  }

  // ----- a reduction to what has been filled

  const BUY_TWO := Request(Add(2, 8, Buy, Limit, 10, 2, 1), 2)
  const TO_TWO := Request(Cmd.Modify(1, 10, 2), 3)
  const PARTLY := OrderRec(1, 7, Sell, Limit, 10, 5, 3, 1, PartiallyFilled)

  /** Two of five filled and the rest cut, the offer is gone and the database still has it open. */
  lemma LandingIsUntold()
    ensures Lawful([OFFER, BUY_TWO, TO_TWO]) && Ready(EMPTY, [OFFER, BUY_TWO, TO_TWO], false)
    ensures !NeverLands([OFFER, BUY_TWO, TO_TWO]) && !AlwaysAgrees([OFFER, BUY_TWO, TO_TWO])
  {
    hide Inv;
    var qs := [OFFER, BUY_TWO, TO_TWO];
    OfferRests();
    BuyTwoFills();
    OfferThen(BUY_TWO);
    assert LandsExactly(Book([], [PARTLY]), TO_TWO.cmd);
    hide Step, LandsExactly;
    assert qs[..2] == [OFFER, BUY_TWO];
    RunAgree(qs);
  }

  lemma BuyTwoFills()
    ensures Accepts(Book([], [OFFERED]), BUY_TWO.cmd)
    ensures forall e: Engine :: e.book == Book([], [OFFERED]) ==> Step(e, BUY_TWO, false).book == Book([], [PARTLY])
  {
    var b, r := Book([], [OFFERED]), BUY_TWO.Entering();
    assert b.All() == [OFFERED];
    assert AllSound(b.asks);
    Progress([OFFERED], r);
    assert RestAfter([OFFERED], r) == [PARTLY] && IncAfter([OFFERED], r).rem == 0;
    assert Sweep([OFFERED], r).rest == [PARTLY];
    assert NewBook(b, r) == Book([], [PARTLY]);
  }

  // ----- blocked funds and shares that fall short

  /** The offer's events settle nothing. */
  lemma OfferSettles(p: Purse, k: nat)
    ensures Accepts(EMPTY.book, OFFER.cmd) && Settle(p, k, Emitted(EMPTY, OFFER)) == p
  {
    hide Settle;
    OfferRests();
    var r := OFFER.Entering();
    assert Match(EMPTY.book, r).acts == [];
    assert Emitted(EMPTY, OFFER) == NewEvents(EMPTY.book, r, false);
    NewQuietEvents(p, EMPTY.book, r, false, k);
    SettleNone(p, k, []);
  }

  /** An exchange that opens with the offer's shares at hand, after it has taken the offer in. */
  lemma OfferAdmitted(x: Exchange, k: nat)
    requires Opening(x) && x.purses[7].shares.available >= 5 && k < MAX_USERS
    ensures Receives(x, [OFFER]) && Traded(x, [OFFER]).engine.book == Book([], [OFFERED])
    ensures Traded(x, [OFFER]).purses[k] ==
      if k == 7 then x.purses[k].(shares := Account(x.purses[7].shares.available - 5, 5)) else x.purses[k]
  {
    OfferRests();
    hide Step, Accepts, Settle, Emitted, Inv;
    assert Receives(x, []) && Traded(x, []) == x && [OFFER][..0] == [];
    assert SlotOf(7) == 7;
    OfferSettles(Admit(x.purses, OFFER.cmd).value[k], k);
  }

  lemma OfferThenTraded(x: Exchange, q: Request)
    requires |x.purses| == MAX_USERS && Receives(x, [OFFER]) && Accepts(Traded(x, [OFFER]).engine.book, q.cmd)
    ensures Receives(x, [OFFER, q]) && [OFFER, q][..1] == [OFFER]
  {
    assert [OFFER, q][..1] == [OFFER];
  }

  const BUY_MARKET := Request(Add(2, 8, Buy, Market, 0, 2, 1), 2)

  /** Whatever funds its user has, a market buy that trades leaves its slot short. */
  lemma MarketBuyIsShort(x: Exchange)
    requires Opening(x) && x.purses[7].shares.available >= 5
    ensures Lawful([OFFER, BUY_MARKET]) && Receives(x, [OFFER, BUY_MARKET]) && !AlwaysCovers(x, [OFFER, BUY_MARKET], 8)
  {
    hide Inv, Trade, Covers, Enough;
    var b, qs := Book([], [OFFERED]), [OFFER, BUY_MARKET];
    OfferRests();
    OfferAdmitted(x, 8);
    assert b.All() == [OFFERED] && SlotOf(8) == 8;
    assert Accepts(b, BUY_MARKET.cmd);
    OfferThenTraded(x, BUY_MARKET);
    BoughtShort(x.purses[8]);
    hide Accepts;
    RunExact(x, qs, 8);
  }

  lemma BoughtShort(p: Purse)
    requires p.cash.blocked == 0
    ensures !Enough(p, Book([], [OFFERED]), BUY_MARKET, 8)
  {
    hide Inv, Asked;
    var b := Book([], [OFFERED]);
    OfferRests();
    assert b.All() == [OFFERED] && SlotOf(8) == 8 && Spare(p, b, 8).cash == 0;
    MarketBuyExact(p, b, BUY_MARKET, 8);
    assert OnOffer([OFFERED], BUY_MARKET.Entering()) == 5;
  }

  const TO_SEVEN := Request(Cmd.Modify(1, 10, 7), 2)

  /** Raised to more than its user has, the offer rests unreserved. */
  lemma RaisedIsShort(x: Exchange)
    requires Opening(x) && x.purses[7].shares.available == 5
    ensures Lawful([OFFER, TO_SEVEN]) && Receives(x, [OFFER, TO_SEVEN]) && !AlwaysCovers(x, [OFFER, TO_SEVEN], 7)
  {
    hide Inv, Trade, Covers, Enough;
    var b, qs := Book([], [OFFERED]), [OFFER, TO_SEVEN];
    OfferRests();
    OfferAdmitted(x, 7);
    assert SlotOf(7) == 7;
    InvOf(b, Sell);
    assert Accepts(b, TO_SEVEN.cmd);
    OfferThenTraded(x, TO_SEVEN);
    RaisedTooFar(Traded(x, [OFFER]).purses[7]);
    hide Accepts;
    RunExact(x, qs, 7);
  }

  lemma RaisedTooFar(p: Purse)
    requires p.shares == Account(0, 5)
    ensures !Enough(p, Book([], [OFFERED]), TO_SEVEN, 7)
  {
    hide Inv, Asked;
    var b := Book([], [OFFERED]);
    OfferRests();
    assert SlotOf(7) == 7 && Spare(p, b, 7).shares == 0;
    ReplacementExact(p, b, OFFERED, Replacement(OFFERED, 10, 7, 2), 7);
    hide ReplacementEnough;
  }
}
