/** The writer that settles and releases reservations from the engine's database events, batch by batch. */
module DbWriters {
  import opened EngineSpec
  import opened Balances

  /** What an event does to the funds of slot k. */
  function ApplyFunds(a: Account, k: nat, ev: DbEvent): Account {
    var o := ev.order;
    match ev.kind
    case Accepted => a
    case Filled =>
      if o.side.Buy? then SettledFunds(a, k, SlotOf(o.user), SlotOf(ev.peerUser), ev.fillPrice, ev.fillQty) else a
    case Cancelled =>
      if o.rem > 0 && o.side.Buy? && k == SlotOf(o.user) then UnblockedFunds(a, o.price * o.rem) else a
    case Modified =>
      if o.side.Sell? || k != SlotOf(o.user) then a
      else if ev.fillQty < 0 then UnblockedFunds(a, o.price * -ev.fillQty)
      else Blocked(a, o.price * ev.fillQty)
  }

  /** And to its shares of the event's symbol. */
  function ApplyShares(a: Account, k: nat, ev: DbEvent): Account {
    var o := ev.order;
    match ev.kind
    case Accepted => a
    case Filled =>
      if o.side.Buy? then SettledShares(a, k, SlotOf(o.user), SlotOf(ev.peerUser), ev.fillQty) else a
    case Cancelled =>
      if o.rem > 0 && o.side.Sell? && k == SlotOf(o.user) then UnblockedShares(a, o.rem) else a
    case Modified =>
      if o.side.Buy? || k != SlotOf(o.user) then a
      else if ev.fillQty < 0 then UnblockedShares(a, -ev.fillQty)
      else Blocked(a, ev.fillQty)
  }

  /** An event as it stands in the writer's batch. */
  datatype Queued = Queued(event: DbEvent, symbol: nat)

  function FoldFunds(a: Account, k: nat, batch: seq<Queued>): Account {
    if batch == [] then a
    else ApplyFunds(FoldFunds(a, k, batch[..|batch| - 1]), k, batch[|batch| - 1].event)
  }

  function FoldShares(a: Account, k: nat, y: nat, batch: seq<Queued>): Account {
    if batch == [] then a
    else
      var before := FoldShares(a, k, y, batch[..|batch| - 1]);
      if batch[|batch| - 1].symbol == y then ApplyShares(before, k, batch[|batch| - 1].event) else before
  }

  class DBWriter {
    const cache: BalanceCache
    var batch: seq<Queued>

    constructor (cache: BalanceCache)
      ensures this.cache == cache && batch == []
    {
      this.cache := cache;
      batch := [];
    }

    method Push(q: Queued)
      modifies this
      ensures batch == old(batch) + [q]
    {
      batch := batch + [q];
    }

    /** Settles and releases for every event of the batch in order, and empties it. */
    method Flush()
      requires cache.Valid() && forall i :: 0 <= i < |batch| ==> batch[i].symbol < cache.numSymbols
      modifies this, cache.funds, cache.holdings
      ensures batch == []
      ensures forall k :: 0 <= k < MAX_USERS ==> cache.funds[k] == FoldFunds(old(cache.funds[k]), k, old(batch))
      ensures forall k: nat, y: nat :: k < MAX_USERS && y < cache.numSymbols ==>
        cache.Shares(k, y) == FoldShares(old(cache.Shares(k, y)), k, y, old(batch))
    {
      var i := 0;
      while i < |batch|
        invariant 0 <= i <= |batch| && batch == old(batch)
        invariant forall k :: 0 <= k < MAX_USERS ==> cache.funds[k] == FoldFunds(old(cache.funds[k]), k, batch[..i])
        invariant forall k: nat, y: nat :: k < MAX_USERS && y < cache.numSymbols ==>
          cache.Shares(k, y) == FoldShares(old(cache.Shares(k, y)), k, y, batch[..i])
      {
        Settle(batch[i].event, batch[i].symbol);
        assert batch[..i + 1][..i] == batch[..i];
        i := i + 1;
      }
      assert batch[..i] == batch;
      batch := [];
    }

    method Settle(ev: DbEvent, symbol: nat)
      requires cache.Valid() && symbol < cache.numSymbols
      modifies cache.funds, cache.holdings
      ensures forall k :: 0 <= k < MAX_USERS ==> cache.funds[k] == ApplyFunds(old(cache.funds[k]), k, ev)
      ensures forall k: nat, y: nat :: k < MAX_USERS && y < cache.numSymbols ==>
        cache.Shares(k, y) ==
        if y == symbol then ApplyShares(old(cache.Shares(k, y)), k, ev) else old(cache.Shares(k, y))
    {
      var o := ev.order;
      if ev.kind.Filled? && o.side.Buy? {
        cache.SettleTrade(o.user, ev.peerUser, symbol, ev.fillPrice, ev.fillQty);
      } else if ev.kind.Cancelled? {
        if o.rem > 0 {
          if o.side.Buy? {
            cache.UnblockFunds(o.user, o.price * o.rem);
          } else {
            cache.UnblockHoldings(o.user, symbol, o.rem);
          }
        }
      } else if ev.kind.Modified? {
        if ev.fillQty < 0 {
          if o.side.Buy? {
            cache.UnblockFunds(o.user, o.price * -ev.fillQty);
          } else {
            cache.UnblockHoldings(o.user, symbol, -ev.fillQty);
          }
        } else if ev.fillQty > 0 {
          if o.side.Buy? {
            var _ := cache.TryBlockFunds(o.user, o.price * ev.fillQty);
          } else {
            var _ := cache.TryBlockHoldings(o.user, symbol, ev.fillQty);
          }
        }
      }
    }
  }
}
