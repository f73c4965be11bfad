/** The write-ahead log: one reusable record, overwritten field by field and appended. */
module Wal {
  import opened CoreTypes
  import opened EngineSpec

  datatype WalAction = ADD | CANCEL | MODIFY | TRADE

  datatype LogEntry = LogEntry(
    action: WalAction, id: nat, user: nat, side: Side, kind: OrderType, price: int,
    qty: int, rem: int, ts: nat, state: OrderState, peer: nat)

  /** What replay reads of a record; the other fields may be left over from an earlier one. */
  function Reads(e: LogEntry): seq<Cmd> {
    match e.action
    case ADD => [Add(e.id, e.user, e.side, e.kind, e.price, e.qty, e.ts)]
    case CANCEL => [Cmd.Cancel(e.id)]
    case MODIFY => [Cmd.Modify(e.id, e.price, e.qty)]
    case TRADE => []
  }

  function ReadAll(entries: seq<LogEntry>): seq<Cmd> {
    if entries == [] then [] else ReadAll(entries[..|entries| - 1]) + Reads(entries[|entries| - 1])
  }

  class WALSystem {
    var entries: seq<LogEntry>
    var trades: seq<TradeLine>
    var reusable: LogEntry

    /** Opens the log over the records an earlier process left; the trade file starts a new sequence. */
    constructor (existing: seq<LogEntry>)
      ensures entries == existing && trades == []
    {
      entries, trades := existing, [];
      reusable := LogEntry(ADD, 0, 0, Buy, Limit, 0, 0, 0, 0, New, 0);
    }

    method WriteEntry()
      modifies this`entries
      ensures ReadAll(entries) == old(ReadAll(entries)) + Reads(reusable)
    {
      entries := entries + [reusable];
      assert entries[..|entries| - 1] == old(entries);
    }

    method LogInput(r: OrderRec)
      modifies this`entries, this`reusable
      ensures ReadAll(entries) == old(ReadAll(entries)) + [AddOf(r)]
    {
      reusable := LogEntry(ADD, r.id, r.user, r.side, r.kind, r.price, r.qty, r.rem, r.ts, r.state, 0);
      WriteEntry();
    }

    method LogModify(id: nat, price: int, qty: int)
      modifies this`entries, this`reusable
      ensures ReadAll(entries) == old(ReadAll(entries)) + [Cmd.Modify(id, price, qty)]
    {
      reusable := reusable.(action := MODIFY, id := id, peer := 0, price := price, qty := qty, rem := 0, ts := 0);
      WriteEntry();
    }

    method LogCancel(id: nat)
      modifies this`entries, this`reusable
      ensures ReadAll(entries) == old(ReadAll(entries)) + [Cmd.Cancel(id)]
    {
      reusable := reusable.(action := CANCEL, id := id, peer := 0, price := 0, qty := 0, rem := 0, ts := 0);
      WriteEntry();
    }

    /** Fills the record but writes to the trade file only. */
    method LogTrade(aggressor: nat, resting: nat, price: int, qty: int)
      modifies this`trades, this`reusable
      ensures trades == old(trades) + [TradeLine(aggressor, resting, price, qty)]
    {
      reusable := reusable.(action := TRADE, id := aggressor, peer := resting, price := price, qty := qty,
                            rem := 0, ts := 0, state := New);
      trades := trades + [TradeLine(aggressor, resting, price, qty)];
    }
  }
}
