/**
 The matching engine as a state machine over values: the book, the write-ahead log, the trade file and
 the events it has emitted, and what a new order, a cancel and a modify do to each.
 */
module EngineSpec {
  import opened CoreTypes
  import opened PriceTime
  import opened Pools
  import opened Sweeps

  datatype Book = Book(bids: seq<OrderRec>, asks: seq<OrderRec>) {
    function Of(side: Side): seq<OrderRec> {
      if side.Buy? then bids else asks
    }

    function With(side: Side, s: seq<OrderRec>): Book {
      if side.Buy? then this.(bids := s) else this.(asks := s)
    }

    function All(): seq<OrderRec> {
      bids + asks
    }
  }

  /** A log record as replay reads it. */
  datatype Cmd =
    | Add(id: nat, user: nat, side: Side, kind: OrderType, price: int, qty: int, ts: nat)
    | Cancel(id: nat)
    | Modify(id: nat, price: int, qty: int)

  datatype TradeLine = TradeLine(aggressor: nat, resting: nat, price: int, qty: int)

  datatype DbKind = Accepted | Filled | Cancelled | Modified

  /** order carries the event's order fields, stamped with the event's own time. */
  datatype DbEvent = DbEvent(kind: DbKind, order: OrderRec, fillPrice: int, fillQty: int, peerId: nat, peerUser: nat)

  /** Everything the four output queues receive, in the order of emission. */
  datatype Event =
    | OrderFill(id: nat, user: nat, price: int, qty: int, rem: int, state: OrderState, ts: nat)
    | CancelAck(id: nat, user: nat, rem: int, state: OrderState, ts: nat)
    | ModifyAck(id: nat, user: nat, rem: int, state: OrderState, ts: nat)
    | TradePrint(side: Side, price: int, qty: int, bid: int, ask: int, ts: nat)
    | QuoteUpdate(bid: int, ask: int, ts: nat)
    | Db(event: DbEvent)

  datatype Engine = Engine(book: Book, log: seq<Cmd>, trades: seq<TradeLine>, out: seq<Event>)

  const EMPTY := Engine(Book([], []), [], [], [])

  /** quiet while the log is replayed; replacing inside a modify. */
  datatype Mode = Mode(quiet: bool, replacing: bool)

  function Incoming(c: Cmd): OrderRec
    requires c.Add?
  {
    OrderRec(c.id, c.user, c.side, c.kind, c.price, c.qty, c.qty, c.ts, New)
  }

  /** An order as it is taken from the pool. */
  predicate Untouched(r: OrderRec) {
    r.rem == r.qty && r.state.New?
  }

  function AddOf(r: OrderRec): Cmd {
    Add(r.id, r.user, r.side, r.kind, r.price, r.qty, r.ts)
  }

  function Quote(b: Book, ts: nat): Event {
    QuoteUpdate(Front(b.bids), Front(b.asks), ts)
  }

  function Find(s: seq<OrderRec>, id: nat): Option<OrderRec> {
    if s == [] then None else if s[0].id == id then Some(s[0]) else Find(s[1..], id)
  }

  function Lookup(b: Book, id: nat): Option<OrderRec> {
    Find(b.All(), id)
  }

  function Stamped(r: OrderRec, ts: nat): OrderRec {
    r.(ts := ts)
  }

  function DbPlain(kind: DbKind, r: OrderRec, ts: nat): Event {
    Db(DbEvent(kind, Stamped(r, ts), 0, 0, 0, 0))
  }

  // ----- looking up an id

  lemma {:induction false} FindNone(s: seq<OrderRec>, id: nat)
    ensures Find(s, id).None? <==> !HasId(s, id)
    ensures Find(s, id).Some? ==> Find(s, id).value in s && Find(s, id).value.id == id
  {
    if s != [] {
      FindNone(s[1..], id);
      assert s[0].id != id && HasId(s, id) ==> HasId(s[1..], id) by {
        if s[0].id != id && HasId(s, id) {
          var i :| 0 <= i < |s| && s[i].id == id;
          assert s[1..][i - 1].id == id;
        }
      }
      if i :| 0 <= i < |s[1..]| && s[1..][i].id == id {
        assert s[i + 1].id == id;
      }
    }
  }

  lemma LookupNone(b: Book, id: nat)
    requires !HasId(b.All(), id)
    ensures Lookup(b, id) == None
  {
    FindNone(b.All(), id);
  }

  lemma LookupOne(b: Book, r: OrderRec)
    requires UniqueIds(b.All()) && r in b.Of(r.side)
    ensures Lookup(b, r.id) == Some(r)
  {
    var i :| 0 <= i < |b.Of(r.side)| && b.Of(r.side)[i] == r;
    assert b.All()[if r.side.Buy? then i else |b.bids| + i] == r;
    assert HasId(b.All(), r.id);
    FindNone(b.All(), r.id);
  }

  lemma HasIdEither(b: Book, id: nat)
    ensures HasId(b.All(), id) <==> HasId(b.bids, id) || HasId(b.asks, id)
  {
    if i :| 0 <= i < |b.bids| && b.bids[i].id == id {
      assert b.All()[i].id == id;
    }
    if i :| 0 <= i < |b.asks| && b.asks[i].id == id {
      assert b.All()[|b.bids| + i].id == id;
    }
    if i :| 0 <= i < |b.All()| && b.All()[i].id == id {
      assert if i < |b.bids| then b.bids[i].id == id else b.asks[i - |b.bids|].id == id;
    }
  }

  // ----- a new order

  /** The state a swept order closes with: a market remainder is cancelled. */
  function Closing(r: OrderRec): OrderRec {
    var r' := r.Restated();
    if r'.kind.Market? && r'.rem > 0 then r'.(state := OrderState.Cancelled) else r'
  }

  predicate Rests(r: OrderRec) {
    !(r.kind.Market? || r.state.Filled? || r.state.Cancelled?)
  }

  function Match(b: Book, r: OrderRec): Swept
    requires AllSound(b.Of(r.side.Opposite()))
  {
    Sweep(b.Of(r.side.Opposite()), r)
  }

  function Settled(b: Book, side: Side, m: Swept): Book {
    var final := Closing(m.inc);
    var swept := b.With(side.Opposite(), m.rest);
    if Rests(final) then swept.With(side, Place(swept.Of(side), final)) else swept
  }

  function NewBook(b: Book, r: OrderRec): Book
    requires AllSound(b.Of(r.side.Opposite()))
  {
    Settled(b, r.side, Match(b, r))
  }

  function ActEvents(a: Act, side: Side, own: int, ts: nat): seq<Event> {
    var bid, ask := if side.Buy? then own else a.best, if side.Buy? then a.best else own;
    match a
    case SelfCancel(r, _) =>
      [QuoteUpdate(bid, ask, ts),
       CancelAck(r.id, r.user, r.rem, OrderState.Cancelled, ts),
       DbPlain(DbKind.Cancelled, r.(state := OrderState.Cancelled), ts)]
    case Fill(g, r, qty, _) =>
      [Db(DbEvent(DbKind.Filled, Stamped(g, ts), r.price, qty, r.id, r.user)),
       Db(DbEvent(DbKind.Filled, Stamped(r, ts), r.price, qty, g.id, g.user)),
       OrderFill(g.id, g.user, r.price, qty, g.rem, g.state, ts),
       OrderFill(r.id, r.user, r.price, qty, r.rem, r.state, ts),
       TradePrint(side, r.price, qty, bid, ask, ts)]
  }

  function ActsEvents(acts: seq<Act>, side: Side, own: int, ts: nat): seq<Event> {
    if acts == [] then []
    else ActsEvents(acts[..|acts| - 1], side, own, ts) + ActEvents(acts[|acts| - 1], side, own, ts)
  }

  function ActsLog(acts: seq<Act>): seq<Cmd> {
    if acts == [] then []
    else ActsLog(acts[..|acts| - 1]) +
         (if acts[|acts| - 1].SelfCancel? then [Cancel(acts[|acts| - 1].resting.id)] else [])
  }

  function ActsTrades(acts: seq<Act>): seq<TradeLine> {
    if acts == [] then []
    else
      var a := acts[|acts| - 1];
      ActsTrades(acts[..|acts| - 1]) +
      (if a.Fill? then [TradeLine(a.aggressor.id, a.resting.id, a.resting.price, a.qty)] else [])
  }

  function ClosingEvents(b: Book, r: OrderRec): seq<Event>
    requires AllSound(b.Of(r.side.Opposite()))
  {
    var final := Closing(Match(b, r).inc);
    if final.state.Cancelled? then [CancelAck(final.id, final.user, final.rem, final.state, r.ts)]
    else if Rests(final) then [Quote(NewBook(b, r), r.ts)]
    else []
  }

  function NewEvents(b: Book, r: OrderRec, replacing: bool): seq<Event>
    requires AllSound(b.Of(r.side.Opposite()))
  {
    (if replacing then [] else [DbPlain(DbKind.Accepted, r, r.ts)]) +
    ActsEvents(Match(b, r).acts, r.side, Front(b.Of(r.side)), r.ts) +
    ClosingEvents(b, r)
  }

  predicate Full(b: Book) {
    |b.All()| >= MAX_ORDERS
  }

  /** Refused, without a trace, only when the order pool is exhausted. */
  function OnNew(e: Engine, r: OrderRec, mode: Mode): Engine
    requires AllSound(e.book.Of(r.side.Opposite()))
  {
    if Full(e.book) then e
    else
      var acts := Match(e.book, r).acts;
      var book := NewBook(e.book, r);
      if mode.quiet then e.(book := book)
      else Engine(book,
                  e.log + ActsLog(acts) + (if mode.replacing then [] else [AddOf(r)]),
                  e.trades + ActsTrades(acts),
                  e.out + NewEvents(e.book, r, mode.replacing))
  }

  // ----- a cancel

  function Without(b: Book, r: OrderRec): Book {
    b.With(r.side, RemoveId(b.Of(r.side), r.id))
  }

  function CancelEvents(b: Book, r: OrderRec, ts: nat): seq<Event> {
    [Quote(Without(b, r), ts),
     CancelAck(r.id, r.user, r.rem, r.state, ts),
     DbPlain(DbKind.Cancelled, r.(state := OrderState.Cancelled), ts)]
  }

  /** Logged even when the id is unknown. */
  function OnCancel(e: Engine, id: nat, ts: nat, quiet: bool): Engine {
    var logged := if quiet then e else e.(log := e.log + [Cancel(id)]);
    match Lookup(e.book, id)
    case None => logged
    case Some(r) =>
      if r.state.Filled? then logged
      else logged.(book := Without(e.book, r), out := e.out + if quiet then [] else CancelEvents(e.book, r, ts))
  }

  // ----- a modify

  function Shrink(r: OrderRec, qty: int): OrderRec {
    r.(qty := qty, rem := r.rem - (r.qty - qty)).Restated()
  }

  predicate ReducesInPlace(r: OrderRec, price: int, qty: int) {
    price == r.price && qty < r.qty
  }

  function ReducedBook(b: Book, r: OrderRec, qty: int): Book {
    var r' := Shrink(r, qty);
    if r'.state.Filled? then Without(b, r) else b.With(r.side, ReplaceId(b.Of(r.side), r'))
  }

  function ReducedEvents(b: Book, r: OrderRec, qty: int, ts: nat): seq<Event> {
    var r' := Shrink(r, qty);
    if r'.state.Filled? then [Quote(ReducedBook(b, r, qty), ts)]
    else [Quote(ReducedBook(b, r, qty), ts),
          ModifyAck(r'.id, r'.user, r'.rem, r'.state, ts),
          Db(DbEvent(DbKind.Modified, Stamped(r', ts), 0, -(r.qty - qty), 0, 0))]
  }

  function Replacement(r: OrderRec, price: int, qty: int, ts: nat): OrderRec {
    OrderRec(r.id, r.user, r.side, r.kind, price, qty, qty, ts, New)
  }

  /** What reports a replacement that came to rest. */
  function PlacedEvents(b: Book, id: nat, ts: nat): seq<Event> {
    match Lookup(b, id)
    case None => []
    case Some(p) => [ModifyAck(p.id, p.user, p.rem, p.state, ts),
                     Db(DbEvent(DbKind.Modified, Stamped(p, ts), 0, p.rem, 0, 0))]
  }

  lemma {:induction false} RemoveKeepsSound(s: seq<OrderRec>, id: nat)
    requires AllSound(s)
    ensures AllSound(RemoveId(s, id))
  {
    if s != [] {
      RemoveKeepsSound(s[1..], id);
    }
  }

  /** When it is not cut in place: it is cancelled and entered anew. */
  function Replaced(e: Engine, r: OrderRec, price: int, qty: int, ts: nat, quiet: bool): Engine
    requires AllSound(e.book.bids) && AllSound(e.book.asks) && Lookup(e.book, r.id) == Some(r)
  {
    var gone := OnCancel(e, r.id, ts, quiet);
    if r.state.Filled? then gone
    else
      RemoveKeepsSound(e.book.Of(r.side), r.id);
      var entered := OnNew(gone, Replacement(r, price, qty, ts), Mode(quiet, true));
      if quiet then entered else entered.(out := entered.out + PlacedEvents(entered.book, r.id, ts))
  }

  /** The part of a modify that follows its log record, for an order that rests. */
  function Revised(e: Engine, r: OrderRec, price: int, qty: int, ts: nat, quiet: bool): Engine
    requires AllSound(e.book.bids) && AllSound(e.book.asks) && Lookup(e.book, r.id) == Some(r)
  {
    if !ReducesInPlace(r, price, qty) then Replaced(e, r, price, qty, ts, quiet)
    else if r.rem < r.qty - qty then e
    else e.(book := ReducedBook(e.book, r, qty), out := e.out + if quiet then [] else ReducedEvents(e.book, r, qty, ts))
  }

  /** Whether a modify reports success. */
  predicate Modifies(b: Book, c: Cmd)
    requires c.Modify?
  {
    match Lookup(b, c.id)
    case None => false
    case Some(r) =>
      if ReducesInPlace(r, c.price, c.qty) then r.rem >= r.qty - c.qty else !r.state.Filled? && !Full(Without(b, r))
  }

  /** Logged even when refused. At the same price a smaller quantity is cut in place; anything else
      cancels the order and enters it anew under the same id, without an ADD of its own. */
  function OnModify(e: Engine, id: nat, price: int, qty: int, ts: nat, quiet: bool): Engine
    requires AllSound(e.book.bids) && AllSound(e.book.asks)
  {
    var logged := if quiet then e else e.(log := e.log + [Modify(id, price, qty)]);
    match Lookup(e.book, id)
    case None => logged
    case Some(r) =>
      FindNone(e.book.All(), id);
      Revised(logged, r, price, qty, ts, quiet)
  }
}
