/**
 What each request comes to, told from the request, the book and the events alone: where and as what its
 order comes to rest, when it does not, and what its user is told of it.
 */
module Terms {
  import opened CoreTypes
  import opened PriceTime
  import opened Pools
  import opened Sweeps
  import opened EngineSpec
  import opened Runs
  import opened BookInvariants
  import opened EventViews
  import opened Validations

  // ----- what a listener can add up

  /** The quantity that the fill notices of an id report. */
  function FilledIn(es: seq<Event>, id: nat): int {
    if es == [] then 0
    else
      var last := es[|es| - 1];
      FilledIn(es[..|es| - 1], id) + if last.OrderFill? && last.id == id then last.qty else 0
  }

  /** The acknowledgements an id receives, in order. */
  function Acks(es: seq<Event>, id: nat): seq<Event> {
    if es == [] then []
    else
      var last := es[|es| - 1];
      Acks(es[..|es| - 1], id) + if (last.CancelAck? || last.ModifyAck?) && last.id == id then [last] else []
  }

  lemma {:induction false} FilledAppend(a: seq<Event>, b: seq<Event>, id: nat)
    ensures FilledIn(a + b, id) == FilledIn(a, id) + FilledIn(b, id)
  {
    if b == [] {
      assert a + b == a;
    } else {
      FilledAppend(a, b[..|b| - 1], id);
      assert (a + b)[..|a + b| - 1] == a + b[..|b| - 1];
    }
  }

  lemma {:induction false} AcksAppend(a: seq<Event>, b: seq<Event>, id: nat)
    ensures Acks(a + b, id) == Acks(a, id) + Acks(b, id)
  {
    if b == [] {
      assert a + b == a;
    } else {
      AcksAppend(a, b[..|b| - 1], id);
      assert (a + b)[..|a + b| - 1] == a + b[..|b| - 1];
    }
  }

  /** Events that tell an id's user nothing. */
  lemma {:induction false} Silent(es: seq<Event>, id: nat)
    requires forall i :: 0 <= i < |es| ==> !es[i].OrderFill? && !es[i].CancelAck? && !es[i].ModifyAck?
    ensures FilledIn(es, id) == 0 && Acks(es, id) == []
  {
    if es != [] {
      Silent(es[..|es| - 1], id);
    }
  }

  lemma OneEvent(ev: Event, id: nat)
    ensures FilledIn([ev], id) == if ev.OrderFill? && ev.id == id then ev.qty else 0
    ensures Acks([ev], id) == if (ev.CancelAck? || ev.ModifyAck?) && ev.id == id then [ev] else []
  {
    assert [ev][..0] == [];
  }

  // ----- a match, as the incoming order's user is told of it

  lemma ActAcks(a: Act, side: Side, own: int, ts: nat, id: nat)
    ensures Acks(ActEvents(a, side, own, ts), id) ==
      if a.SelfCancel? && a.resting.id == id
      then [CancelAck(id, a.resting.user, a.resting.rem, OrderState.Cancelled, ts)] else []
  {
    var es := ActEvents(a, side, own, ts);
    if a.SelfCancel? {
      assert es == [es[0]] + [es[1]] + [es[2]];
      OneEvent(es[0], id);
      OneEvent(es[1], id);
      OneEvent(es[2], id);
      AcksAppend([es[0]], [es[1]], id);
      AcksAppend([es[0]] + [es[1]], [es[2]], id);
    } else {
      NoAcks(es, id);
    }
  }

  lemma {:induction false} NoAcks(es: seq<Event>, id: nat)
    requires forall i :: 0 <= i < |es| ==> !es[i].CancelAck? && !es[i].ModifyAck?
    ensures Acks(es, id) == []
  {
    if es != [] {
      NoAcks(es[..|es| - 1], id);
    }
  }

  lemma ActFills(a: Act, side: Side, own: int, ts: nat, id: nat)
    requires a.resting.id != id && (a.Fill? ==> a.aggressor.id == id)
    ensures FilledIn(ActEvents(a, side, own, ts), id) == if a.Fill? then a.qty else 0
  {
    var es := ActEvents(a, side, own, ts);
    if a.SelfCancel? {
      NoFills(es, id);
    } else {
      assert es == es[..2] + [es[2]] + es[3..];
      NoFills(es[..2], id);
      OneEvent(es[2], id);
      NoFills(es[3..], id);
      FilledAppend(es[..2], [es[2]], id);
      FilledAppend(es[..2] + [es[2]], es[3..], id);
    }
  }

  lemma {:induction false} NoFills(es: seq<Event>, id: nat)
    requires forall i :: 0 <= i < |es| && es[i].OrderFill? ==> es[i].id != id
    ensures FilledIn(es, id) == 0
  {
    if es != [] {
      NoFills(es[..|es| - 1], id);
    }
  }

  /** Its fill notices add up to what it no longer wants, and it is acknowledged nothing. */
  lemma {:induction false} SweepNotices(s: seq<OrderRec>, inc: OrderRec, own: int, ts: nat)
    requires AllSound(s) && !HasId(s, inc.id)
    ensures FilledIn(ActsEvents(Sweep(s, inc).acts, inc.side, own, ts), inc.id) == inc.rem - Sweep(s, inc).inc.rem
    ensures Acks(ActsEvents(Sweep(s, inc).acts, inc.side, own, ts), inc.id) == []
    decreases if inc.rem > 0 then inc.rem else 0, |s|
  {
    if Stops(s, inc) {
      assert Sweep(s, inc).acts == [];
    } else {
      hide ActEvents, ActsEvents, FilledIn, Acks;
      Progress(s, inc);
      var a, t, inc' := ActOf(s, inc), RestAfter(s, inc), IncAfter(s, inc);
      assert s[0].id != inc.id;
      RestIds(s, inc);
      SweepNotices(t, inc', own, ts);
      ActFills(a, inc.side, own, ts, inc.id);
      ActAcks(a, inc.side, own, ts, inc.id);
      var acts := Sweep(t, inc').acts;
      ActsEventsCons(a, acts, inc.side, own, ts);
      FilledAppend(ActEvents(a, inc.side, own, ts), ActsEvents(acts, inc.side, own, ts), inc.id);
      AcksAppend(ActEvents(a, inc.side, own, ts), ActsEvents(acts, inc.side, own, ts), inc.id);
    }
  }

  lemma RestIds(s: seq<OrderRec>, inc: OrderRec)
    requires s != []
    ensures forall id :: HasId(RestAfter(s, inc), id) ==> HasId(s, id)
  {
    var t := RestAfter(s, inc);
    forall id | HasId(t, id) ensures HasId(s, id) {
      var k :| 0 <= k < |t| && t[k].id == id;
      assert s[if |t| == |s| then k else k + 1].id == id;
    }
  }

  // ----- places in the queue

  /** t' is t with p let in behind every order at a price as good as its own, and before the others. */
  ghost predicate JoinsBehind(side: Side, t: seq<OrderRec>, p: OrderRec, t': seq<OrderRec>) {
    exists k: nat :: k <= |t| && t' == t[..k] + [p] + t[k..] && Between(side, t, p, k)
  }

  predicate Between(side: Side, t: seq<OrderRec>, p: OrderRec, k: nat)
    requires k <= |t|
  {
    && (forall j :: 0 <= j < k ==> if side.Buy? then t[j].price >= p.price else t[j].price <= p.price)
    && (forall j :: k <= j < |t| ==> if side.Buy? then t[j].price < p.price else t[j].price > p.price)
  }

  /** t' is t without r. */
  ghost predicate Cut(t: seq<OrderRec>, r: OrderRec, t': seq<OrderRec>) {
    exists k: nat :: k < |t| && t[k] == r && t' == t[..k] + t[k + 1..]
  }

  /** t' is t with p where r stood. */
  ghost predicate InPlace(t: seq<OrderRec>, r: OrderRec, p: OrderRec, t': seq<OrderRec>) {
    exists k: nat :: k < |t| && t[k] == r && t' == t[k := p]
  }

  lemma {:induction false} PlaceBetween(s: seq<OrderRec>, r: OrderRec) returns (k: nat)
    requires Sorted(r.side, s)
    ensures k <= |s| && Place(s, r) == s[..k] + [r] + s[k..] && Between(r.side, s, r, k)
  {
    if s == [] || !Ahead(r.side, s[0].price, r.price) {
      k := 0;
      assert forall j :: 0 <= j < |s| ==> Ahead(r.side, s[0].price, s[j].price);
      assert s[..0] + [r] + s[0..] == [r] + s;
    } else {
      var i := PlaceBetween(s[1..], r);
      k := i + 1;
      assert s[..k] == [s[0]] + s[1..][..i] && s[k..] == s[1..][i..];
      assert Place(s, r) == [s[0]] + (s[1..][..i] + [r] + s[1..][i..]);
      assert forall j :: 1 <= j < |s| ==> s[j] == s[1..][j - 1];
    }
  }

  lemma PlaceJoins(s: seq<OrderRec>, r: OrderRec)
    requires Sorted(r.side, s)
    ensures JoinsBehind(r.side, s, r, Place(s, r))
  {
    var k := PlaceBetween(s, r);
  }

  lemma RemoveCuts(s: seq<OrderRec>, r: OrderRec)
    requires UniqueIds(s) && r in s
    ensures Cut(s, r, RemoveId(s, r.id))
  {
    var k: nat :| k < |s| && s[k] == r;
    RemoveAt(s, k);
  }

  lemma ReplaceInPlace(s: seq<OrderRec>, r: OrderRec, p: OrderRec)
    requires UniqueIds(s) && r in s && p.id == r.id
    ensures InPlace(s, r, p, ReplaceId(s, p))
  {
    var k: nat :| k < |s| && s[k] == r;
    ReplaceShape(s, p);
    assert ReplaceId(s, p) == s[k := p];
  }

  // ----- an order that enters the book, new or replacing

  /** What becomes of an order r that entered where own stood on its side and was filled by so much: it comes to
      rest exactly when it is a limit order not filled in full, as itself less what it was filled by, behind
      every order at a price as good. */
  ghost predicate Rested(r: OrderRec, filled: int, own: seq<OrderRec>, left: Option<OrderRec>, own': seq<OrderRec>) {
    && filled >= 0 && (r.qty >= 0 ==> filled <= r.qty)
    && (left.Some? <==> r.kind.Limit? && (r.qty <= 0 || filled < r.qty))
    && match left
       case None => own' == own
       case Some(p) =>
         && p.id == r.id && p.user == r.user && p.side == r.side && p.kind == r.kind && p.price == r.price
         && p.qty == r.qty && p.rem == r.qty - filled && p.ts == r.ts
         && p.state == (if filled == 0 then New else PartiallyFilled)
         && JoinsBehind(r.side, own, p, own')
  }

  /** A market order's user is told what it was not filled by; no one else is acknowledged an entry. */
  ghost predicate Enters(b: Book, r: OrderRec, b': Book, es: seq<Event>) {
    var filled := FilledIn(es, r.id);
    && Rested(r, filled, b.Of(r.side), Lookup(b', r.id), b'.Of(r.side))
    && Acks(es, r.id) ==
       (if r.kind.Market? && filled < r.qty then [CancelAck(r.id, r.user, r.qty - filled, OrderState.Cancelled, r.ts)]
        else [])
  }

  lemma ClosingNotices(b: Book, r: OrderRec)
    requires AllSound(b.Of(r.side.Opposite()))
    ensures FilledIn(ClosingEvents(b, r), r.id) == 0
    ensures var final := Closing(Match(b, r).inc);
      Acks(ClosingEvents(b, r), r.id) ==
      if final.state.Cancelled? then [CancelAck(r.id, r.user, final.rem, OrderState.Cancelled, r.ts)] else []
  {
    SweepExit(b.Of(r.side.Opposite()), r);
    hide Match;
    var es := ClosingEvents(b, r);
    if es != [] {
      assert es == [es[0]];
      OneEvent(es[0], r.id);
    }
  }

  lemma EntryNotices(b: Book, r: OrderRec, replacing: bool)
    requires AllSound(b.Of(r.side.Opposite())) && !HasId(b.Of(r.side.Opposite()), r.id)
    ensures FilledIn(NewEvents(b, r, replacing), r.id) == r.rem - Match(b, r).inc.rem
    ensures Acks(NewEvents(b, r, replacing), r.id) == Acks(ClosingEvents(b, r), r.id)
  {
    hide Sweep, ActsEvents, ClosingEvents;
    var first := if replacing then [] else [DbPlain(DbKind.Accepted, r, r.ts)];
    var middle := ActsEvents(Match(b, r).acts, r.side, Front(b.Of(r.side)), r.ts);
    Silent(first, r.id);
    SweepNotices(b.Of(r.side.Opposite()), r, Front(b.Of(r.side)), r.ts);
    ClosingNotices(b, r);
    FilledAppend(first, middle, r.id);
    AcksAppend(first, middle, r.id);
    FilledAppend(first + middle, ClosingEvents(b, r), r.id);
    AcksAppend(first + middle, ClosingEvents(b, r), r.id);
  }

  lemma MatchedRest(b: Book, r: OrderRec)
    requires Inv(b) && !HasId(b.All(), r.id)
    ensures AllSound(b.Of(r.side.Opposite()))
    ensures var m := Match(b, r);
      && !HasId(m.rest, r.id) && Apart(b.Of(r.side), m.rest) && Apart(Place(b.Of(r.side), Closing(m.inc)), m.rest)
  {
    hide SideInv;
    var other := r.side.Opposite();
    InvOf(b, r.side);
    InvOf(b, other);
    FreshIn(b, r.side, r.id);
    SweepTail(other, b.Of(other), r);
    SweepExit(b.Of(other), r);
    ApartAfter(b.Of(r.side), b.Of(other), Match(b, r).rest, Closing(Match(b, r).inc));
  }

  lemma EntryFound(b: Book, r: OrderRec)
    requires Inv(b) && Untouched(r) && !HasId(b.All(), r.id)
    ensures AllSound(b.Of(r.side.Opposite()))
    ensures var final, own := Closing(Match(b, r).inc), b.Of(r.side);
      if Rests(final)
      then Lookup(NewBook(b, r), r.id) == Some(final) && JoinsBehind(r.side, own, final, NewBook(b, r).Of(r.side))
      else Lookup(NewBook(b, r), r.id) == None && NewBook(b, r).Of(r.side) == own
  {
    hide Inv, Sweep, JoinsBehind, Place;
    InvOf(b, r.side.Opposite());
    FreshIn(b, r.side, r.id);
    MatchedRest(b, r);
    SweepExit(b.Of(r.side.Opposite()), r);
    var m, own := Match(b, r), b.Of(r.side);
    SortedOf(b, r.side);
    PlaceJoins(own, Closing(m.inc));
    FindPlaced(own, Closing(m.inc), r.id);
    FindNone(own, r.id);
    FindNone(m.rest, r.id);
    LookupEither(NewBook(b, r), r.side, r.id);
  }

  /** Closing an order that has been matched. */
  lemma Closes(b: Book, r: OrderRec)
    requires AllSound(b.Of(r.side.Opposite())) && Untouched(r)
    ensures var m, final := Match(b, r).inc, Closing(Match(b, r).inc);
      && m.rem <= r.rem && (r.rem >= 0 ==> m.rem >= 0) && (r.rem <= 0 ==> m.rem == r.rem)
      && final == r.(rem := m.rem, state := final.state)
      && final.state == if r.kind.Market? && m.rem > 0 then OrderState.Cancelled
                        else if m.rem == r.qty then New else if m.rem == 0 then OrderState.Filled else PartiallyFilled
  {
    SweepExit(b.Of(r.side.Opposite()), r);
  }

  /** So it is told from the closed order alone. */
  lemma RestedIs(r: OrderRec, final: OrderRec, own: seq<OrderRec>, left: Option<OrderRec>, own': seq<OrderRec>)
    requires Untouched(r) && final == r.(rem := final.rem, state := final.state)
    requires final.rem <= r.rem && (r.rem >= 0 ==> final.rem >= 0) && (r.rem <= 0 ==> final.rem == r.rem)
    requires final.state == if r.kind.Market? && final.rem > 0 then OrderState.Cancelled
                            else if final.rem == r.qty then New
                            else if final.rem == 0 then OrderState.Filled else PartiallyFilled
    requires if Rests(final) then left == Some(final) && JoinsBehind(r.side, own, final, own')
             else left == None && own' == own
    ensures Rested(r, r.rem - final.rem, own, left, own')
  {
    hide JoinsBehind;
  }

  lemma EntryRested(b: Book, r: OrderRec)
    requires Inv(b) && Untouched(r) && !HasId(b.All(), r.id)
    ensures AllSound(b.Of(r.side.Opposite()))
    ensures var b', filled := NewBook(b, r), r.rem - Match(b, r).inc.rem;
      Rested(r, filled, b.Of(r.side), Lookup(b', r.id), b'.Of(r.side))
  {
    hide Inv, AllSound, Match, Closing, NewBook, HasId, Lookup, Rested, JoinsBehind;
    EntryFound(b, r);
    Closes(b, r);
    var b' := NewBook(b, r);
    RestedIs(r, Closing(Match(b, r).inc), b.Of(r.side), Lookup(b', r.id), b'.Of(r.side));
  }

  lemma EntryAcks(b: Book, r: OrderRec, replacing: bool)
    requires AllSound(b.Of(r.side.Opposite())) && !HasId(b.Of(r.side.Opposite()), r.id) && Untouched(r)
    ensures var es := NewEvents(b, r, replacing);
      var filled := r.rem - Match(b, r).inc.rem;
      && FilledIn(es, r.id) == filled
      && Acks(es, r.id) ==
         (if r.kind.Market? && filled < r.qty
          then [CancelAck(r.id, r.user, r.qty - filled, OrderState.Cancelled, r.ts)] else [])
  {
    hide AllSound, Match, Closing, NewEvents, ClosingEvents, HasId, FilledIn, Acks;
    EntryNotices(b, r, replacing);
    ClosingNotices(b, r);
    Closes(b, r);
  }

  lemma EntryDoes(b: Book, r: OrderRec, replacing: bool)
    requires Inv(b) && Untouched(r) && !HasId(b.All(), r.id)
    ensures AllSound(b.Of(r.side.Opposite()))
    ensures Enters(b, r, NewBook(b, r), NewEvents(b, r, replacing))
  {
    hide Inv, AllSound, Untouched, Match, NewBook, NewEvents, HasId, FilledIn, Acks, Lookup, Rested;
    InvOf(b, r.side.Opposite());
    FreshIn(b, r.side, r.id);
    EntryRested(b, r);
    EntryAcks(b, r, replacing);
  }

  lemma SortedOf(b: Book, side: Side)
    requires Inv(b)
    ensures Sorted(side, b.Of(side)) && UniqueIds(b.Of(side))
  {
  }

  // ----- one request

  /** The order that a new order's command describes, stamped by the clock if it has no time of its own. */
  function Asks(q: Request): OrderRec
    requires q.cmd.Add?
  {
    var c := q.cmd;
    OrderRec(c.id, c.user, c.side, c.kind, c.price, c.qty, c.qty, if c.ts == 0 then q.now else c.ts, New)
  }

  /** A new order is entered as its command describes it, and refused only by a full book. */
  lemma AddDoes(e: Engine, q: Request)
    requires Inv(e.book) && Accepts(e.book, q.cmd) && q.cmd.Add?
    ensures if |e.book.bids| + |e.book.asks| >= MAX_ORDERS then Step(e, q, false) == e
            else Enters(e.book, Asks(q), Step(e, q, false).book, Emitted(e, q))
  {
    hide Inv, NewBook, NewEvents, Enters;
    if !Full(e.book) {
      EntryDoes(e.book, q.Entering(), false);
      assert Emitted(e, q) == NewEvents(e.book, q.Entering(), false);
      assert q.Entering() == Asks(q);
    }
  }

  /** A cancel takes out exactly the order it names, and tells its user what was left of it. */
  lemma CancelDoes(e: Engine, q: Request)
    requires Inv(e.book) && q.cmd.Cancel?
    ensures var b, b', id := e.book, Step(e, q, false).book, q.cmd.id;
      match Lookup(b, id)
      case None => b' == b && Emitted(e, q) == []
      case Some(r) =>
        && Lookup(b', id) == None && Cut(b.Of(r.side), r, b'.Of(r.side))
        && b'.Of(r.side.Opposite()) == b.Of(r.side.Opposite())
        && FilledIn(Emitted(e, q), id) == 0
        && Acks(Emitted(e, q), id) == [CancelAck(id, r.user, r.rem, r.state, q.now)]
  {
    hide Inv, Cut, CancelEvents;
    var b, id := e.book, q.cmd.id;
    if Lookup(b, id).Some? {
      var r := Lookup(b, id).value;
      Found(b, id);
      TakenOut(b, r);
      CancelNotices(b, r, q.now);
      assert Emitted(e, q) == CancelEvents(b, r, q.now);
    }
  }

  lemma TakenOut(b: Book, r: OrderRec)
    requires Inv(b) && Lookup(b, r.id) == Some(r)
    ensures !r.state.Filled? && r.kind.Limit? && 0 < r.rem <= r.qty
    ensures Lookup(Without(b, r), r.id) == None && Cut(b.Of(r.side), r, Without(b, r).Of(r.side))
    ensures Inv(Without(b, r)) && !HasId(Without(b, r).All(), r.id) && !Full(Without(b, r))
  {
    hide Inv, Cut;
    Found(b, r.id);
    FindWithout(b, r, r.id);
    RemoveKeepsInv(b, r);
    SortedOf(b, r.side);
    RemoveCuts(b.Of(r.side), r);
  }

  lemma CancelNotices(b: Book, r: OrderRec, ts: nat)
    ensures FilledIn(CancelEvents(b, r, ts), r.id) == 0
    ensures Acks(CancelEvents(b, r, ts), r.id) == [CancelAck(r.id, r.user, r.rem, r.state, ts)]
  {
    var es := CancelEvents(b, r, ts);
    assert es == [es[0]] + [es[1]] + [es[2]];
    OneEvent(es[0], r.id);
    OneEvent(es[1], r.id);
    OneEvent(es[2], r.id);
    FilledAppend([es[0]], [es[1]], r.id);
    AcksAppend([es[0]], [es[1]], r.id);
    FilledAppend([es[0]] + [es[1]], [es[2]], r.id);
    AcksAppend([es[0]] + [es[1]], [es[2]], r.id);
  }

  /** A smaller quantity at the same price is cut from what is left, in place; more than is left is refused. */
  ghost predicate CutsInPlace(b: Book, r: OrderRec, c: Cmd, now: nat, b': Book, es: seq<Event>)
    requires c.Modify?
  {
    var cut := r.qty - c.qty;
    && b'.Of(r.side.Opposite()) == b.Of(r.side.Opposite()) && FilledIn(es, c.id) == 0
    && if r.rem < cut then b' == b && es == []
       else if r.rem == cut && c.qty != 0 then
         Lookup(b', c.id) == None && Cut(b.Of(r.side), r, b'.Of(r.side)) && Acks(es, c.id) == []
       else
         var state := if r.rem == r.qty then New else PartiallyFilled;
         var p := r.(qty := c.qty, rem := r.rem - cut, state := state);
         && Lookup(b', c.id) == Some(p) && InPlace(b.Of(r.side), r, p, b'.Of(r.side))
         && Acks(es, c.id) == [ModifyAck(c.id, r.user, p.rem, p.state, now)]
  }

  lemma CutDoes(e: Engine, q: Request, r: OrderRec)
    requires Inv(e.book) && q.cmd.Modify? && Accepts(e.book, q.cmd)
    requires Lookup(e.book, q.cmd.id) == Some(r) && q.cmd.price == r.price && q.cmd.qty < r.qty
    ensures CutsInPlace(e.book, r, q.cmd, q.now, Step(e, q, false).book, Emitted(e, q))
  {
    hide Inv, Cut, InPlace;
    var b, c := e.book, q.cmd;
    Found(b, c.id);
    if r.rem >= r.qty - c.qty {
      hide ReducedEvents, ReducedBook;
      CutBook(b, r, c.qty);
      CutNotices(b, r, c.qty, q.now);
      assert Emitted(e, q) == ReducedEvents(b, r, c.qty, q.now);
    } else {
      assert Emitted(e, q) == [];
    }
  }

  lemma CutBook(b: Book, r: OrderRec, qty: int)
    requires Inv(b) && Lookup(b, r.id) == Some(r) && qty < r.qty && r.rem >= r.qty - qty
    ensures var b', p := ReducedBook(b, r, qty), Shrink(r, qty);
      && b'.Of(r.side.Opposite()) == b.Of(r.side.Opposite())
      && if p.state.Filled? then Lookup(b', r.id) == None && Cut(b.Of(r.side), r, b'.Of(r.side))
         else Lookup(b', r.id) == Some(p) && InPlace(b.Of(r.side), r, p, b'.Of(r.side))
  {
    hide Inv, Cut, InPlace, RemoveId;
    Found(b, r.id);
    TakenOut(b, r);
    SortedOf(b, r.side);
    var p, own := Shrink(r, qty), b.Of(r.side);
    if !p.state.Filled? {
      ReplaceInPlace(own, r, p);
      InvOf(b, r.side);
      ReplacedApart(own, b.Of(r.side.Opposite()), p);
      LookupEither(ReducedBook(b, r, qty), r.side, r.id);
      FindReplaced(own, p, r.id);
      FindNone(b.Of(r.side.Opposite()), r.id);
      var i :| 0 <= i < |own| && own[i] == r;
      assert HasId(own, r.id);
    }
  }

  lemma ReplacedApart(s: seq<OrderRec>, t: seq<OrderRec>, p: OrderRec)
    requires Apart(s, t)
    ensures Apart(ReplaceId(s, p), t)
  {
    forall id | HasId(ReplaceId(s, p), id) ensures !HasId(t, id) {
      ReplaceIds(s, p, id);
    }
  }

  lemma CutNotices(b: Book, r: OrderRec, qty: int, ts: nat)
    ensures FilledIn(ReducedEvents(b, r, qty, ts), r.id) == 0
    ensures var p := Shrink(r, qty);
      Acks(ReducedEvents(b, r, qty, ts), r.id) ==
      if p.state.Filled? then [] else [ModifyAck(p.id, p.user, p.rem, p.state, ts)]
  {
    hide ReducedBook;
    var es := ReducedEvents(b, r, qty, ts);
    OneEvent(es[0], r.id);
    if Shrink(r, qty).state.Filled? {
      assert es == [es[0]];
    } else {
      assert es == [es[0]] + [es[1]] + [es[2]];
      OneEvent(es[1], r.id);
      OneEvent(es[2], r.id);
      FilledAppend([es[0]], [es[1]], r.id);
      AcksAppend([es[0]], [es[1]], r.id);
      FilledAppend([es[0]] + [es[1]], [es[2]], r.id);
      AcksAppend([es[0]] + [es[1]], [es[2]], r.id);
    }
  }

  /** Anything else takes the order out and tells its user so, and enters it anew at the price and for the
      quantity asked for, under its old id and at the present time; if it rests its user is told that too. */
  ghost predicate EntersAnew(b: Book, r: OrderRec, c: Cmd, now: nat, b': Book, es: seq<Event>)
    requires c.Modify?
  {
    var r' := r.(price := c.price, qty := c.qty, rem := c.qty, ts := now, state := New);
    var left := Lookup(b', c.id);
    && (exists own :: Cut(b.Of(r.side), r, own) && Rested(r', FilledIn(es, c.id), own, left, b'.Of(r.side)))
    && Acks(es, c.id) ==
       [CancelAck(c.id, r.user, r.rem, r.state, now)] +
       if left.Some? then [ModifyAck(c.id, r.user, left.value.rem, left.value.state, now)] else []
  }

  /** A limit order's entry. */
  lemma LimitEntry(b: Book, r: OrderRec)
    requires Inv(b) && Untouched(r) && !HasId(b.All(), r.id) && r.kind.Limit?
    ensures AllSound(b.Of(r.side.Opposite()))
    ensures var b', es := NewBook(b, r), NewEvents(b, r, true);
      && Rested(r, FilledIn(es, r.id), b.Of(r.side), Lookup(b', r.id), b'.Of(r.side)) && Acks(es, r.id) == []
      && (Lookup(b', r.id).Some? ==> Lookup(b', r.id).value.id == r.id && Lookup(b', r.id).value.user == r.user)
  {
    hide Inv, NewBook, NewEvents;
    EntryDoes(b, r, true);
  }

  lemma AnewNotices(b: Book, r: OrderRec, p: OrderRec)
    requires AllSound(Without(b, r).Of(p.side.Opposite())) && p.id == r.id && p.user == r.user
    requires var left := Lookup(NewBook(Without(b, r), p), p.id);
      left.Some? ==> left.value.id == p.id && left.value.user == r.user
    requires Acks(NewEvents(Without(b, r), p, true), p.id) == []
    ensures var gone, es := Without(b, r), ReplacedEvents(b, r, p);
      var left := Lookup(NewBook(gone, p), p.id);
      && FilledIn(es, p.id) == FilledIn(NewEvents(gone, p, true), p.id)
      && Acks(es, p.id) ==
         [CancelAck(r.id, r.user, r.rem, r.state, p.ts)] +
         if left.Some? then [ModifyAck(p.id, r.user, left.value.rem, left.value.state, p.ts)] else []
  {
    hide Without, NewBook, NewEvents, CancelEvents, PlacedEvents, Lookup, FilledIn, Acks;
    var gone := Without(b, r);
    CancelNotices(b, r, p.ts);
    PlacedNotices(NewBook(gone, p), p.id, p.ts);
    var es0, es1, es2 := CancelEvents(b, r, p.ts), NewEvents(gone, p, true), PlacedEvents(NewBook(gone, p), p.id, p.ts);
    FilledAppend(es0, es1, p.id);
    AcksAppend(es0, es1, p.id);
    FilledAppend(es0 + es1, es2, p.id);
    AcksAppend(es0 + es1, es2, p.id);
  }

  lemma PlacedNotices(b: Book, id: nat, ts: nat)
    ensures FilledIn(PlacedEvents(b, id, ts), id) == 0
    ensures Acks(PlacedEvents(b, id, ts), id) ==
      match Lookup(b, id)
      case None => []
      case Some(p) => [ModifyAck(p.id, p.user, p.rem, p.state, ts)]
  {
    FindNone(b.All(), id);
    var es := PlacedEvents(b, id, ts);
    if es != [] {
      assert es == [es[0]] + [es[1]];
      OneEvent(es[0], id);
      OneEvent(es[1], id);
      FilledAppend([es[0]], [es[1]], id);
      AcksAppend([es[0]], [es[1]], id);
    }
  }

  lemma AnewDoes(e: Engine, q: Request, r: OrderRec)
    requires Inv(e.book) && q.cmd.Modify? && Accepts(e.book, q.cmd)
    requires Lookup(e.book, q.cmd.id) == Some(r) && !(q.cmd.price == r.price && q.cmd.qty < r.qty)
    ensures EntersAnew(e.book, r, q.cmd, q.now, Step(e, q, false).book, Emitted(e, q))
  {
    var b, c := e.book, q.cmd;
    Found(b, c.id);
    TakenOut(b, r);
    var p, gone := Replacement(r, c.price, c.qty, q.now), Without(b, r);
    InvOf(gone, r.side.Opposite());
    hide Inv, SideInv, Cut, Without, NewBook, NewEvents, CancelEvents, PlacedEvents, Rested, FilledIn, Acks, HasId;
    LimitEntry(gone, p);
    AnewNotices(b, r, p);
    ReplacedIs(e, q, r, p);
    assert Cut(b.Of(r.side), r, gone.Of(r.side));
  }

  lemma ReplacedIs(e: Engine, q: Request, r: OrderRec, p: OrderRec)
    requires q.cmd.Modify? && Accepts(e.book, q.cmd) && Lookup(e.book, q.cmd.id) == Some(r) && r.id == q.cmd.id
    requires !(q.cmd.price == r.price && q.cmd.qty < r.qty) && !r.state.Filled? && !Full(Without(e.book, r))
    requires p == Replacement(r, q.cmd.price, q.cmd.qty, q.now)
    ensures AllSound(Without(e.book, r).Of(p.side.Opposite()))
    ensures p == r.(price := q.cmd.price, qty := q.cmd.qty, rem := q.cmd.qty, ts := q.now, state := New)
    ensures Step(e, q, false).book == NewBook(Without(e.book, r), p)
    ensures Emitted(e, q) == ReplacedEvents(e.book, r, p)
  {
    hide NewBook, NewEvents, CancelEvents, PlacedEvents, RemoveId;
    RemoveKeepsSound(e.book.Of(r.side), r.id);
  }

  /** What a modify does, for every price and quantity asked for: nothing if its order does not rest. */
  lemma ModifyDoes(e: Engine, q: Request)
    requires Inv(e.book) && q.cmd.Modify? && Accepts(e.book, q.cmd)
    ensures var b, b', c, es := e.book, Step(e, q, false).book, q.cmd, Emitted(e, q);
      match Lookup(b, c.id)
      case None => b' == b && es == [] && !Modifies(b, c)
      case Some(r) =>
        if c.price == r.price && c.qty < r.qty
        then CutsInPlace(b, r, c, q.now, b', es) && (Modifies(b, c) <==> r.rem >= r.qty - c.qty)
        else EntersAnew(b, r, c, q.now, b', es) && Modifies(b, c)
  {
    hide Inv, CutsInPlace, EntersAnew, Revised, Cut;
    var b, c := e.book, q.cmd;
    if Lookup(b, c.id).Some? {
      var r := Lookup(b, c.id).value;
      Found(b, c.id);
      TakenOut(b, r);
      if c.price == r.price && c.qty < r.qty {
        CutDoes(e, q, r);
      } else {
        AnewDoes(e, q, r);
      }
    }
  }

  /** So an order that a modify finds and leaves on the book stands as asked for, live or replayed: with its
      place kept and its remainder cut if only its quantity was lowered, else entered at that moment. */
  lemma ModifyTerms(e: Engine, q: Request, quiet: bool)
    requires Inv(e.book) && q.cmd.Modify? && Accepts(e.book, q.cmd) && Modifies(e.book, q.cmd)
    requires Lookup(Step(e, q, quiet).book, q.cmd.id).Some?
    ensures var r, p := Lookup(e.book, q.cmd.id).value, Lookup(Step(e, q, quiet).book, q.cmd.id).value;
      && p.price == q.cmd.price && p.qty == q.cmd.qty
      && p.id == r.id && p.user == r.user && p.side == r.side && p.kind == r.kind
      && if q.cmd.price == r.price && q.cmd.qty < r.qty then p.rem == r.rem - (r.qty - q.cmd.qty) && p.ts == r.ts
         else p.rem <= q.cmd.qty && p.ts == q.now
  {
    hide Inv, Step, Accepts, Cut, InPlace, JoinsBehind, Emitted, Acks, FilledIn;
    SameBook(e, e, q, quiet, false);
    ModifyDoes(e, q);
    assert Lookup(e.book, q.cmd.id).Some? by {
      assert Modifies(e.book, q.cmd);
    }
    FindNone(e.book.All(), q.cmd.id);
  }

  /** What the dispatcher makes of a raw request: a cancel, whatever else it is marked as, of the order it
      names, else a modify of it, else the entry of an order with its fields. */
  lemma RawDoes(o: RawOrder, e: Engine, now: nat)
    requires Inv(e.book) && Accepts(e.book, CmdOf(o))
    ensures var b, q := e.book, Request(CmdOf(o), now);
      var b', es := Step(e, q, false).book, Emitted(e, q);
      if o.cancelFlag != 0 then
        match Lookup(b, o.id)
        case None => b' == b
        case Some(r) => Lookup(b', o.id) == None && Cut(b.Of(r.side), r, b'.Of(r.side))
      else if o.modifyFlag != 0 then
        match Lookup(b, o.id)
        case None => b' == b
        case Some(r) =>
          var c := Cmd.Modify(o.id, o.price, o.qty);
          if o.price == r.price && o.qty < r.qty then CutsInPlace(b, r, c, now, b', es)
          else EntersAnew(b, r, c, now, b', es)
      else
        var side, kind := if o.side == 0 then Buy else Sell, if o.kind == 0 then Limit else Market;
        var ts := if o.ts == 0 then now else o.ts;
        |b.bids| + |b.asks| < MAX_ORDERS ==>
          Enters(b, OrderRec(o.id, o.user, side, kind, o.price, o.qty, o.qty, ts, New), b', es)
  {
    hide Inv, Step, Accepts, Cut, CutsInPlace, EntersAnew, Enters, Emitted;
    var q := Request(CmdOf(o), now);
    if o.cancelFlag != 0 {
      CancelDoes(e, q);
    } else if o.modifyFlag != 0 {
      ModifyDoes(e, q);
    } else {
      AddDoes(e, q);
    }
  }

  // ----- what the orders met are acknowledged

  lemma {:induction false} NoneAcked(acts: seq<Act>, side: Side, own: int, ts: nat, id: nat)
    requires forall i :: 0 <= i < |acts| ==> acts[i].resting.id != id
    ensures Acks(ActsEvents(acts, side, own, ts), id) == []
  {
    if acts != [] {
      hide ActEvents;
      var n := |acts| - 1;
      NoneAcked(acts[..n], side, own, ts, id);
      ActAcks(acts[n], side, own, ts, id);
      AcksAppend(ActsEvents(acts[..n], side, own, ts), ActEvents(acts[n], side, own, ts), id);
    }
  }

  lemma {:induction false} OneAcked(acts: seq<Act>, side: Side, own: int, ts: nat, i: nat)
    requires i < |acts| && forall j :: 0 <= j < |acts| && j != i ==> acts[j].resting.id != acts[i].resting.id
    ensures Acks(ActsEvents(acts, side, own, ts), acts[i].resting.id) ==
      Acks(ActEvents(acts[i], side, own, ts), acts[i].resting.id)
  {
    hide ActEvents;
    var n, id := |acts| - 1, acts[i].resting.id;
    AcksAppend(ActsEvents(acts[..n], side, own, ts), ActEvents(acts[n], side, own, ts), id);
    if i == n {
      NoneAcked(acts[..n], side, own, ts, id);
    } else {
      OneAcked(acts[..n], side, own, ts, i);
      ActAcks(acts[n], side, own, ts, id);
    }
  }

  /** A match acknowledges the cancellation of exactly those of the user's own orders that it meets, each with
      what was left of it. */
  lemma SweepAcks(s: seq<OrderRec>, inc: OrderRec, own: int, ts: nat, i: nat)
    requires AllSound(s) && UniqueIds(s) && i < |s|
    ensures Acks(ActsEvents(Sweep(s, inc).acts, inc.side, own, ts), s[i].id) ==
      if Touched(s, inc, i) && s[i].user == inc.user
      then [CancelAck(s[i].id, inc.user, s[i].rem, OrderState.Cancelled, ts)] else []
  {
    SweepInOrder(s, inc);
    var acts := Sweep(s, inc).acts;
    forall j | 0 <= j < |acts| ensures acts[j].resting.id == s[j].id {
      assert ActSpec(s, inc, acts[j], j);
    }
    if i < |acts| {
      assert ActSpec(s, inc, acts[i], i);
      OneAcked(acts, inc.side, own, ts, i);
      ActAcks(acts[i], inc.side, own, ts, s[i].id);
    } else {
      NoneAcked(acts, inc.side, own, ts, s[i].id);
      NotTouched(s, inc, |acts|, i);
    }
  }

  /** Behind an order that is not touched no other is. */
  lemma NotTouched(s: seq<OrderRec>, inc: OrderRec, i: nat, j: nat)
    requires AllSound(s) && i <= j < |s| && !Touched(s, inc, i)
    ensures !Touched(s, inc, j)
  {
    OfferedMore(s, inc.user, i, j);
  }

  lemma {:induction false} OfferedMore(s: seq<OrderRec>, user: nat, i: nat, j: nat)
    requires AllSound(s) && i <= j <= |s|
    ensures Offered(s, user, i) <= Offered(s, user, j)
  {
    if i < j {
      OfferedMore(s, user, i, j - 1);
    }
  }

  // ----- when, and what the log keeps

  /** The time an event carries. */
  function StampOf(ev: Event): nat {
    match ev
    case OrderFill(_, _, _, _, _, _, ts) => ts
    case CancelAck(_, _, _, _, ts) => ts
    case ModifyAck(_, _, _, _, ts) => ts
    case TradePrint(_, _, _, _, _, ts) => ts
    case QuoteUpdate(_, _, ts) => ts
    case Db(d) => d.order.ts
  }

  ghost predicate AllStamped(es: seq<Event>, ts: nat) {
    forall i :: 0 <= i < |es| ==> StampOf(es[i]) == ts
  }

  lemma {:induction false} ActsStamped(acts: seq<Act>, side: Side, own: int, ts: nat)
    ensures AllStamped(ActsEvents(acts, side, own, ts), ts)
  {
    if acts != [] {
      hide ActEvents;
      var n := |acts| - 1;
      ActsStamped(acts[..n], side, own, ts);
      ActStamped(acts[n], side, own, ts);
    }
  }

  lemma ActStamped(a: Act, side: Side, own: int, ts: nat)
    ensures AllStamped(ActEvents(a, side, own, ts), ts)
  {
  }

  lemma NewStamped(b: Book, r: OrderRec, replacing: bool)
    requires AllSound(b.Of(r.side.Opposite()))
    ensures AllStamped(NewEvents(b, r, replacing), r.ts)
  {
    hide Sweep, ActsEvents, NewBook;
    ActsStamped(Match(b, r).acts, r.side, Front(b.Of(r.side)), r.ts);
    assert AllStamped(ClosingEvents(b, r), r.ts);
  }

  /** Every event of a request carries the same time: a new order's own if it has one, else the clock's. */
  lemma StepStamped(e: Engine, q: Request)
    requires Inv(e.book) && Accepts(e.book, q.cmd)
    ensures AllStamped(Emitted(e, q), if q.cmd.Add? && q.cmd.ts != 0 then q.cmd.ts else q.now)
  {
    hide Inv, NewBook, NewEvents, ReducedBook, Without, Lookup, Full;
    var b := e.book;
    if q.cmd.Add? {
      if !Full(b) {
        NewStamped(b, q.Entering(), false);
        assert Emitted(e, q) == NewEvents(b, q.Entering(), false);
      }
    } else if Lookup(b, q.cmd.id).Some? {
      var r := Lookup(b, q.cmd.id).value;
      Found(b, q.cmd.id);
      TakenOut(b, r);
      if q.cmd.Cancel? {
        assert Emitted(e, q) == CancelEvents(b, r, q.now);
      } else if q.cmd.price == r.price && q.cmd.qty < r.qty {
        assert Emitted(e, q) == if r.rem < r.qty - q.cmd.qty then [] else ReducedEvents(b, r, q.cmd.qty, q.now);
      } else {
        var p := Replacement(r, q.cmd.price, q.cmd.qty, q.now);
        AnewStamped(e, q, r, p);
      }
    }
  }

  lemma AroundStamped(b: Book, r: OrderRec, b': Book, ts: nat)
    ensures AllStamped(CancelEvents(b, r, ts), ts) && AllStamped(PlacedEvents(b', r.id, ts), ts)
  {
    hide Without, Lookup;
  }

  lemma AnewStamped(e: Engine, q: Request, r: OrderRec, p: OrderRec)
    requires q.cmd.Modify? && Accepts(e.book, q.cmd) && Lookup(e.book, q.cmd.id) == Some(r) && r.id == q.cmd.id
    requires !(q.cmd.price == r.price && q.cmd.qty < r.qty) && !r.state.Filled? && !Full(Without(e.book, r))
    requires p == Replacement(r, q.cmd.price, q.cmd.qty, q.now)
    ensures AllStamped(Emitted(e, q), q.now)
  {
    ReplacedIs(e, q, r, p);
    NewStamped(Without(e.book, r), p, true);
    hide Without, NewBook, NewEvents, Emitted, Accepts;
    AroundStamped(e.book, r, NewBook(Without(e.book, r), p), q.now);
    hide CancelEvents, PlacedEvents;
  }

  ghost predicate AllCancels(log: seq<Cmd>) {
    forall i :: 0 <= i < |log| ==> log[i].Cancel?
  }

  lemma {:induction false} ActsCancel(acts: seq<Act>)
    ensures AllCancels(ActsLog(acts))
  {
    if acts != [] {
      ActsCancel(acts[..|acts| - 1]);
    }
  }

  /** Every request leaves its record in the log, known order or not and granted or not, but for a new order that a
      full book refuses; all else a request logs are cancellations, before a new order's record and behind a
      modify's. */
  lemma StepLogs(e: Engine, q: Request)
    requires Accepts(e.book, q.cmd)
    ensures var log := Step(e, q, false).log;
      match q.cmd
      case Cancel(_) => log == e.log + [q.cmd]
      case Modify(_, _, _) => e.log + [q.cmd] <= log && AllCancels(log[|e.log| + 1..])
      case Add(_, _, _, _, _, _, ts) =>
        if |e.book.bids| + |e.book.asks| >= MAX_ORDERS then log == e.log
        else
          && e.log < log && AllCancels(log[|e.log|..|log| - 1])
          && log[|log| - 1] == q.cmd.(ts := if ts == 0 then q.now else ts)
  {
    hide NewBook, NewEvents, ReducedEvents, ReducedBook, CancelEvents, PlacedEvents, Lookup, ActsLog;
    if q.cmd.Add? {
      var r := q.Entering();
      if !Full(e.book) {
        ActsCancel(Match(e.book, r).acts);
        assert Step(e, q, false).log == e.log + ActsLog(Match(e.book, r).acts) + [AddOf(r)];
      }
    } else if q.cmd.Modify? && Lookup(e.book, q.cmd.id).Some? {
      ModifyLogs(e, q, Lookup(e.book, q.cmd.id).value);
    }
  }

  lemma ModifyLogs(e: Engine, q: Request, r: OrderRec)
    requires q.cmd.Modify? && Accepts(e.book, q.cmd) && Lookup(e.book, q.cmd.id) == Some(r)
    ensures var log := Step(e, q, false).log;
      e.log + [q.cmd] <= log && AllCancels(log[|e.log| + 1..])
  {
    hide NewBook, NewEvents, ReducedEvents, ReducedBook, CancelEvents, PlacedEvents, ActsLog, RemoveId;
    FindNone(e.book.All(), q.cmd.id);
    RemoveKeepsSound(e.book.Of(r.side), r.id);
    var p := Replacement(r, q.cmd.price, q.cmd.qty, q.now);
    ActsCancel(Match(Without(e.book, r), p).acts);
  }
}
