/** The checks a raw request passes before it may be sequenced, and what an accepted one is worth. */
module Validations {
  import opened CoreTypes
  import opened EngineSpec
  import opened BookInvariants
  import opened Balances
  import opened RateLimiters
  import opened Reservations

  const MIN_PRICE := 1
  const MAX_PRICE := 1000000000
  const MIN_QTY := 1
  const MAX_QTY := 1000000000
  const FAT_FINGER_LIMIT := 1000000000000

  datatype RawOrder = RawOrder(
    sequence: nat, id: nat, user: nat, symbol: nat, price: int, qty: nat,
    side: nat, kind: nat, cancelFlag: nat, modifyFlag: nat, ts: nat)
  {
    predicate IsNew() {
      cancelFlag == 0 && modifyFlag == 0
    }
  }

  datatype SymbolInfo = SymbolInfo(tick: int, lot: int)

  datatype RejectReason =
    | INVALID_RANGE | FAT_FINGER | MARKET_CLOSED | RATE_LIMIT | INVALID_TICK | INVALID_LOT | INSUFFICIENT_FUNDS

  /** What the dispatcher hands to the engine. */
  function CmdOf(o: RawOrder): Cmd {
    if o.cancelFlag != 0 then Cmd.Cancel(o.id)
    else if o.modifyFlag != 0 then Cmd.Modify(o.id, o.price, o.qty)
    else Add(o.id, o.user, if o.side == 0 then Buy else Sell, if o.kind == 0 then Limit else Market, o.price, o.qty,
             o.ts)
  }

  predicate BasicallyValid(o: RawOrder, symbols: nat) {
    o.IsNew() ==>
      && o.symbol < symbols
      && (if o.kind == 0 then MIN_PRICE <= o.price <= MAX_PRICE else o.kind == 1 && o.price == 0)
      && MIN_QTY <= o.qty <= MAX_QTY && o.side <= 1
  }

  predicate NotionalOk(o: RawOrder) {
    o.IsNew() && o.kind != 1 ==> o.price * o.qty <= FAT_FINGER_LIMIT
  }

  predicate TickOk(o: RawOrder, info: Option<SymbolInfo>) {
    o.IsNew() && o.kind != 1 ==> info.Some? && info.value.tick > 0 && o.price % info.value.tick == 0
  }

  predicate LotOk(o: RawOrder, info: Option<SymbolInfo>) {
    info.Some? && info.value.lot > 0 && o.qty % info.value.lot == 0
  }

  /** The first check that fails, in order; the limiter and the balance answer for themselves. */
  function Verdict(o: RawOrder, symbols: nat, open: bool, allowed: bool, info: Option<SymbolInfo>,
                   funded: bool): Option<RejectReason> {
    if !BasicallyValid(o, symbols) then Some(INVALID_RANGE)
    else if !NotionalOk(o) then Some(FAT_FINGER)
    else if !open then Some(MARKET_CLOSED)
    else if !allowed then Some(RATE_LIMIT)
    else if !TickOk(o, info) then Some(INVALID_TICK)
    else if !LotOk(o, info) then Some(INVALID_LOT)
    else if !funded then Some(INSUFFICIENT_FUNDS)
    else None
  }

  /** Reserving the price times the quantity of a buy, or the quantity of a sell, is admitting the command. */
  lemma Admitted(o: RawOrder, ps: seq<Purse>, ps': seq<Purse>)
    requires |ps| == |ps'| == MAX_USERS && (o.IsNew() ==> o.side <= 1)
    requires forall k: nat :: k < MAX_USERS ==>
      var mine := o.IsNew() && k == SlotOf(o.user);
      && ps'[k].cash == (if mine && o.side == 0 then Blocked(ps[k].cash, o.price * o.qty) else ps[k].cash)
      && ps'[k].shares == (if mine && o.side == 1 then Blocked(ps[k].shares, o.qty) else ps[k].shares)
    requires o.IsNew() ==>
      var p := ps[SlotOf(o.user)];
      if o.side == 0 then CanBlock(p.cash, o.price * o.qty) else CanBlock(p.shares, o.qty)
    ensures Admit(ps, CmdOf(o)) == Some(ps')
  {
    hide Blocked, CanBlock;
    forall k: nat | k < MAX_USERS && !(o.IsNew() && k == SlotOf(o.user)) ensures ps'[k] == ps[k] {
    }
    assert Admit(ps, CmdOf(o)).Some?;
    assert Admit(ps, CmdOf(o)).value == ps';
  }

  class ValidationPipeline {
    const limiter: RateLimiter
    const cache: BalanceCache
    const infos: seq<Option<SymbolInfo>>
    var open: seq<bool>

    ghost predicate Valid()
      reads this
    {
      limiter.Valid() && cache.Valid() && |open| == cache.numSymbols
    }

    constructor (limiter: RateLimiter, cache: BalanceCache, infos: seq<Option<SymbolInfo>>, open: seq<bool>)
      ensures this.limiter == limiter && this.cache == cache && this.infos == infos && this.open == open
    {
      this.limiter, this.cache, this.infos, this.open := limiter, cache, infos, open;
    }

    function InfoOf(symbol: nat): Option<SymbolInfo> {
      if symbol < |infos| then infos[symbol] else None
    }

    predicate IsOpen(symbol: nat)
      reads this
    {
      symbol < |open| && open[symbol]
    }

    predicate Allowed(o: RawOrder, now: nat)
      requires limiter.Valid()
      reads limiter, limiter.slots
    {
      Refreshed(limiter.slots[SlotOf(o.user)], Advanced(limiter.clock, now)).count < limiter.maxInWindow
    }

    /** What a new order would reserve is available. */
    predicate Funded(o: RawOrder)
      requires cache.Valid()
      reads cache.funds, cache.holdings
    {
      o.IsNew() ==>
        if o.side == 0 then CanBlock(cache.funds[SlotOf(o.user)], o.price * o.qty)
        else o.side == 1 && o.symbol < cache.numSymbols && CanBlock(cache.Shares(SlotOf(o.user), o.symbol), o.qty)
    }

    /** Every slot's funds, and its shares of one symbol. */
    ghost function Purses(symbol: nat): (ps: seq<Purse>)
      requires Valid() && symbol < cache.numSymbols
      reads this, cache.funds, cache.holdings
      ensures |ps| == MAX_USERS
      ensures forall k: nat :: k < MAX_USERS ==> ps[k] == Purse(cache.funds[k], cache.Shares(k, symbol))
    {
      seq(MAX_USERS, k requires 0 <= k < MAX_USERS reads this, cache.funds, cache.holdings =>
        Purse(cache.funds[k], cache.Shares(k, symbol)))
    }

    /** Exactly which new orders pass, and the first reason why one does not: in order, its fields are out of
        range, it is worth too much, its symbol is closed, its user too fast, its price off the tick, its quantity
        not in whole lots, what it would reserve not there. */
    lemma AdmissionExact(o: RawOrder, now: nat)
      requires Valid() && o.cancelFlag == 0 && o.modifyFlag == 0
      ensures var v := Verdict(o, |open|, IsOpen(o.symbol), Allowed(o, now), InfoOf(o.symbol), Funded(o));
        var worth := o.price * o.qty;
        var inRange := o.symbol < |open| && (o.side == 0 || o.side == 1) && 1 <= o.qty <= 1_000_000_000 &&
          ((o.kind == 0 && 1 <= o.price <= 1_000_000_000) || (o.kind == 1 && o.price == 0));
        var small := o.kind == 0 ==> worth <= 1_000_000_000_000;
        var trading := o.symbol < |open| && open[o.symbol];
        var listed := o.symbol < |infos| && infos[o.symbol].Some?;
        var onTick := o.kind == 0 ==>
          listed && infos[o.symbol].value.tick > 0 && o.price % infos[o.symbol].value.tick == 0;
        var inLots := listed && infos[o.symbol].value.lot > 0 && o.qty % infos[o.symbol].value.lot == 0;
        var inTime := Allowed(o, now);
        var funded := o.symbol < |open| &&
          if o.side == 0 then worth <= 0 || cache.funds[SlotOf(o.user)].available >= worth
          else o.qty == 0 || cache.Shares(SlotOf(o.user), o.symbol).available >= o.qty;
        && (v == None <==> inRange && small && trading && inTime && onTick && inLots && funded)
        && (v == Some(INVALID_RANGE) <==> !inRange)
        && (v == Some(FAT_FINGER) <==> inRange && !small)
        && (v == Some(MARKET_CLOSED) <==> inRange && small && !trading)
        && (v == Some(RATE_LIMIT) <==> inRange && small && trading && !inTime)
        && (v == Some(INVALID_TICK) <==> inRange && small && trading && inTime && !onTick)
        && (v == Some(INVALID_LOT) <==> inRange && small && trading && inTime && onTick && !inLots)
        && (v == Some(INSUFFICIENT_FUNDS) <==>
              inRange && small && trading && inTime && onTick && inLots && !funded)
    {
    }

    /** Runs the checks in order. A request the market check lets through costs a token of its user's rate,
        whatever comes after; funds are reserved for an accepted new order and for nothing else. */
    method Process(o: RawOrder, now: nat) returns (rejected: Option<RejectReason>)
      requires Valid()
      modifies limiter, limiter.slots, cache.funds, cache.holdings
      ensures rejected == Verdict(o, |open|, IsOpen(o.symbol), old(Allowed(o, now)), InfoOf(o.symbol), old(Funded(o)))
      ensures rejected in {Some(INVALID_RANGE), Some(FAT_FINGER), Some(MARKET_CLOSED)} ==>
        && limiter.clock == old(limiter.clock) && limiter.slots[..] == old(limiter.slots[..])
      ensures rejected !in {Some(INVALID_RANGE), Some(FAT_FINGER), Some(MARKET_CLOSED)} ==>
        && limiter.clock == Advanced(old(limiter.clock), now)
        && limiter.slots[..] ==
           old(limiter.slots[..])[SlotOf(o.user) :=
             Counted(Refreshed(old(limiter.slots[SlotOf(o.user)]), limiter.clock), limiter.maxInWindow)]
      ensures cache.funds[..] == if rejected.None? && o.IsNew() && o.side == 0
        then old(cache.funds[..])[SlotOf(o.user) := Blocked(old(cache.funds[SlotOf(o.user)]), o.price * o.qty)]
        else old(cache.funds[..])
      ensures forall k: nat, y: nat :: k < MAX_USERS && y < cache.numSymbols ==>
        cache.Shares(k, y) ==
        if rejected.None? && o.IsNew() && o.side == 1 && k == SlotOf(o.user) && y == o.symbol
        then Blocked(old(cache.Shares(k, y)), o.qty) else old(cache.Shares(k, y))
      ensures o.symbol < cache.numSymbols && rejected.None? ==>
        Admit(old(Purses(o.symbol)), CmdOf(o)) == Some(Purses(o.symbol))
      ensures o.symbol < cache.numSymbols && rejected == Some(INSUFFICIENT_FUNDS) ==>
        Admit(old(Purses(o.symbol)), CmdOf(o)) == None && Purses(o.symbol) == old(Purses(o.symbol))
    {
      if !BasicallyValid(o, |open|) {
        return Some(INVALID_RANGE);
      }
      if !NotionalOk(o) {
        return Some(FAT_FINGER);
      }
      if !IsOpen(o.symbol) {
        return Some(MARKET_CLOSED);
      }
      var allowed := limiter.CheckAndIncrement(o.user, now);
      if !allowed {
        return Some(RATE_LIMIT);
      }
      if !TickOk(o, InfoOf(o.symbol)) {
        return Some(INVALID_TICK);
      }
      if !LotOk(o, InfoOf(o.symbol)) {
        return Some(INVALID_LOT);
      }
      ghost var before := if o.symbol < cache.numSymbols then Purses(o.symbol) else [];
      var funded := CheckBalance(o);
      if funded && o.symbol < cache.numSymbols {
        Admitted(o, before, Purses(o.symbol));
      }
      return if funded then None else Some(INSUFFICIENT_FUNDS);
    }

    method CheckBalance(o: RawOrder) returns (ok: bool)
      requires Valid() && BasicallyValid(o, |open|)
      modifies cache.funds, cache.holdings
      ensures ok == old(Funded(o))
      ensures cache.funds[..] == if ok && o.IsNew() && o.side == 0
        then old(cache.funds[..])[SlotOf(o.user) := Blocked(old(cache.funds[SlotOf(o.user)]), o.price * o.qty)]
        else old(cache.funds[..])
      ensures forall k: nat, y: nat :: k < MAX_USERS && y < cache.numSymbols ==>
        cache.Shares(k, y) ==
        if ok && o.IsNew() && o.side == 1 && k == SlotOf(o.user) && y == o.symbol
        then Blocked(old(cache.Shares(k, y)), o.qty) else old(cache.Shares(k, y))
    {
      if o.cancelFlag != 0 || o.modifyFlag != 0 {
        return true;
      }
      if o.side == 0 {
        ok := cache.TryBlockFunds(o.user, o.price * o.qty);
      } else if o.side == 1 {
        ok := cache.TryBlockHoldings(o.user, o.symbol, o.qty);
      } else {
        ok := false;
      }
    }
  }

  /** A new order that passes is one the book can take. A cancel or modify passes whenever its symbol is
      open, its rate allows it and its quantity, even of nothing, is in whole lots; no check looks at the
      price of a modify, so what it asks for may be nothing the book can take. */
  lemma AcceptedIsOrderly(o: RawOrder, symbols: nat, open: bool, allowed: bool, info: Option<SymbolInfo>, funded: bool)
    ensures var passed := Verdict(o, symbols, open, allowed, info, funded).None?;
      && (o.IsNew() && passed ==> Orderly(CmdOf(o)))
      && (!o.IsNew() ==> (passed <==> open && allowed && LotOk(o, info) && funded))
      && (passed ==> (Orderly(CmdOf(o)) <==> (CmdOf(o).Modify? ==> o.qty >= 1 && 0 <= o.price < U64)))
    ensures CmdOf(o).Add? && o.kind == 0 && Verdict(o, symbols, open, allowed, info, funded).None? ==>
      o.price * o.qty <= FAT_FINGER_LIMIT && o.price >= 1
    ensures CmdOf(o).Add? && o.kind == 1 && Verdict(o, symbols, open, allowed, info, funded).None? ==> o.price == 0
  {
    assert U64 > MAX_PRICE;
  }

  /** So a modify to quantity 0 passes wherever trading in the symbol is possible at all. */
  lemma ZeroModifyPasses(o: RawOrder, symbols: nat, open: bool, allowed: bool, info: Option<SymbolInfo>)
    requires o.modifyFlag != 0 && o.cancelFlag == 0 && o.qty == 0
    ensures Verdict(o, symbols, open, allowed, info, true).None? <==>
      open && allowed && info.Some? && info.value.lot > 0
    ensures !Orderly(CmdOf(o))
  {
  }
}
