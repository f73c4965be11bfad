/**
 What a listener can tell of the book from the events alone: the last database event of every order id
 says whether and how it rests, and the last quote is the book's own best bid and ask.
 */
module EventViews {
  import opened CoreTypes
  import opened PriceTime
  import opened Sweeps
  import opened EngineSpec
  import opened Runs
  import opened BookInvariants

  // ----- the database's view

  /** The last database event about an order. */
  function LastDb(out: seq<Event>, id: nat): Option<DbEvent> {
    if out == [] then None
    else
      var last := out[|out| - 1];
      if last.Db? && last.event.order.id == id then Some(last.event) else LastDb(out[..|out| - 1], id)
  }

  /** The event describes an order that is still open: a limit order, not cancelled, with a remainder. */
  predicate Live(ev: DbEvent) {
    ev.order.kind.Limit? && !ev.kind.Cancelled? && ev.order.rem > 0
  }

  function Later<T>(a: Option<T>, b: Option<T>): Option<T> {
    if b.Some? then b else a
  }

  /** What the last event says of an order that stood as before and now stands as after: nothing if
      there was none, else everything but the time it was entered. */
  predicate Tells(last: Option<DbEvent>, before: Option<OrderRec>, after: Option<OrderRec>) {
    match last
    case None => after == before
    case Some(ev) => if Live(ev) then after.Some? && Stamped(after.value, ev.order.ts) == ev.order else after.None?
  }

  lemma {:induction false} LastDbAppend(a: seq<Event>, b: seq<Event>, id: nat)
    ensures LastDb(a + b, id) == Later(LastDb(a, id), LastDb(b, id))
  {
    if b == [] {
      assert a + b == a;
    } else {
      LastDbAppend(a, b[..|b| - 1], id);
      assert (a + b)[..|a + b| - 1] == a + b[..|b| - 1];
    }
  }

  lemma TellsNext(o1: Option<DbEvent>, o2: Option<DbEvent>, x: Option<OrderRec>, y: Option<OrderRec>,
                  z: Option<OrderRec>)
    requires Tells(o1, x, y) && Tells(o2, y, z)
    ensures Tells(Later(o1, o2), x, z)
  {
  }

  lemma LastDbOf(es: seq<Event>, id: nat)
    requires |es| <= 3 && forall i :: 1 <= i < |es| ==> !es[i].Db?
    ensures LastDb(es, id) == if es != [] && es[0].Db? && es[0].event.order.id == id then Some(es[0].event) else None
  {
    if es != [] {
      var es1 := es[..|es| - 1];
      if es1 != [] {
        var es2 := es1[..|es1| - 1];
        assert es2 == [] || es2 == [es[0]];
      }
    }
  }

  // ----- looking up an id after each edit

  lemma {:induction false} FindRemoved(s: seq<OrderRec>, x: nat, id: nat)
    ensures Find(RemoveId(s, x), id) == if id == x then None else Find(s, id)
  {
    if s != [] {
      FindRemoved(s[1..], x, id);
      assert ([s[0]] + RemoveId(s[1..], x))[1..] == RemoveId(s[1..], x);
    }
  }

  lemma {:induction false} FindPlaced(s: seq<OrderRec>, r: OrderRec, id: nat)
    requires !HasId(s, r.id)
    ensures Find(Place(s, r), id) == if id == r.id then Some(r) else Find(s, id)
  {
    if s == [] || !Ahead(r.side, s[0].price, r.price) {
      assert ([r] + s)[1..] == s;
    } else {
      assert s[0].id == r.id ==> HasId(s, r.id);
      ConsIds(s[0], s[1..], r.id);
      assert [s[0]] + s[1..] == s;
      FindPlaced(s[1..], r, id);
      assert ([s[0]] + Place(s[1..], r))[1..] == Place(s[1..], r);
    }
  }

  lemma {:induction false} FindReplaced(s: seq<OrderRec>, r: OrderRec, id: nat)
    ensures Find(ReplaceId(s, r), id) == if id == r.id && HasId(s, id) then Some(r) else Find(s, id)
  {
    FindNone(s, id);
    if s != [] {
      FindReplaced(s[1..], r, id);
      FindNone(s[1..], id);
      ConsIds(s[0], s[1..], id);
      assert [s[0]] + s[1..] == s;
      var head := if s[0].id == r.id then r else s[0];
      assert ([head] + ReplaceId(s[1..], r))[1..] == ReplaceId(s[1..], r);
    }
  }

  lemma {:induction false} FindAppend(s: seq<OrderRec>, t: seq<OrderRec>, id: nat)
    ensures Find(s + t, id) == if Find(s, id).Some? then Find(s, id) else Find(t, id)
  {
    if s == [] {
      assert s + t == t;
    } else {
      FindAppend(s[1..], t, id);
      assert (s + t)[1..] == s[1..] + t;
    }
  }

  /** An id rests on one side at most, so either side may be asked first. */
  lemma LookupEither(b: Book, side: Side, id: nat)
    requires Apart(b.Of(side), b.Of(side.Opposite()))
    ensures Lookup(b, id) == Later(Find(b.Of(side.Opposite()), id), Find(b.Of(side), id))
  {
    FindAppend(b.bids, b.asks, id);
    FindNone(b.bids, id);
    FindNone(b.asks, id);
  }

  // ----- the acts of a match

  lemma {:induction false} ActsEventsCons(a: Act, acts: seq<Act>, side: Side, own: int, ts: nat)
    ensures ActsEvents([a] + acts, side, own, ts) == ActEvents(a, side, own, ts) + ActsEvents(acts, side, own, ts)
  {
    hide ActEvents;
    var all := [a] + acts;
    if acts == [] {
      assert all[..0] == [] && all[0] == a;
    } else {
      var n := |acts| - 1;
      ActsEventsCons(a, acts[..n], side, own, ts);
      assert all[..|all| - 1] == [a] + acts[..n] && all[|all| - 1] == acts[n];
    }
  }

  lemma ActDb(a: Act, side: Side, own: int, ts: nat, id: nat)
    ensures var last := LastDb(ActEvents(a, side, own, ts), id);
      match a
      case SelfCancel(r, _) =>
        var gone := r.(state := OrderState.Cancelled);
        last == if r.id == id then Some(DbEvent(DbKind.Cancelled, Stamped(gone, ts), 0, 0, 0, 0)) else None
      case Fill(g, r, qty, _) =>
        last == if r.id == id then Some(DbEvent(DbKind.Filled, Stamped(r, ts), r.price, qty, g.id, g.user))
                else if g.id == id then Some(DbEvent(DbKind.Filled, Stamped(g, ts), r.price, qty, r.id, r.user))
                else None
  {
    var es := ActEvents(a, side, own, ts);
    if a.SelfCancel? {
      LastDbAppend(es[..2], es[2..], id);
      LastDbOf(es[2..], id);
      LastDbOf(es[..2], id);
      assert es == es[..2] + es[2..];
    } else {
      LastDbOf(es[..1], id);
      LastDbOf(es[1..2], id);
      LastDbOf(es[2..], id);
      LastDbAppend(es[..1], es[1..2], id);
      LastDbAppend(es[..2], es[2..], id);
      assert es[..1] + es[1..2] == es[..2] && es == es[..2] + es[2..];
    }
  }

  /** One turn: its events tell of the order it met. */
  lemma TurnTells(s: seq<OrderRec>, inc: OrderRec, own: int, ts: nat, id: nat)
    requires SideInv(inc.side.Opposite(), s) && !Stops(s, inc) && !HasId(s, inc.id) && id != inc.id
    ensures Tells(LastDb(ActEvents(ActOf(s, inc), inc.side, own, ts), id), Find(s, id), Find(RestAfter(s, inc), id))
    ensures LastDb(ActEvents(ActOf(s, inc), inc.side, own, ts), id).Some? ==> Find(s, id).Some?
  {
    hide ActEvents;
    ActDb(ActOf(s, inc), inc.side, own, ts, id);
    var r := Reduced(s[0], Min(inc.rem, s[0].rem));
    assert WellKept(inc.side.Opposite(), s[0]);
    assert s[0].id == inc.id ==> HasId(s, inc.id);
    assert ([r] + s[1..])[1..] == s[1..];
    if id == s[0].id {
      FindNone(s[1..], id);
    }
  }

  /** The events of a whole match tell of every resting order. */
  lemma {:induction false} SweepTells(s: seq<OrderRec>, inc: OrderRec, own: int, ts: nat, id: nat)
    requires SideInv(inc.side.Opposite(), s) && !HasId(s, inc.id) && id != inc.id
    ensures Tells(LastDb(ActsEvents(Sweep(s, inc).acts, inc.side, own, ts), id), Find(s, id),
                  Find(Sweep(s, inc).rest, id))
    ensures LastDb(ActsEvents(Sweep(s, inc).acts, inc.side, own, ts), id).Some? ==> Find(s, id).Some?
    decreases if inc.rem > 0 then inc.rem else 0, |s|
  {
    if !Stops(s, inc) {
      hide ActEvents, ActsEvents, LastDb, Find, Tells, ActOf;
      Progress(s, inc);
      TurnTail(inc.side.Opposite(), s, inc);
      var t, inc', a := RestAfter(s, inc), IncAfter(s, inc), ActOf(s, inc);
      var acts := Sweep(t, inc').acts;
      SweepTells(t, inc', own, ts, id);
      FindNone(t, id);
      FindNone(s, id);
      TurnTells(s, inc, own, ts, id);
      ActsEventsCons(a, acts, inc.side, own, ts);
      LastDbAppend(ActEvents(a, inc.side, own, ts), ActsEvents(acts, inc.side, own, ts), id);
      TellsNext(LastDb(ActEvents(a, inc.side, own, ts), id), LastDb(ActsEvents(acts, inc.side, own, ts), id),
                Find(s, id), Find(t, id), Find(Sweep(t, inc').rest, id));
    } else {
      assert Sweep(s, inc).acts == [];
    }
  }

  /** Of the incoming order they tell its last fill, if it was filled at all. */
  ghost predicate TellsIncoming(last: Option<DbEvent>, inc: OrderRec, inc': OrderRec, ts: nat) {
    if inc'.rem == inc.rem then last.None? && inc' == inc
    else last.Some? && last.value.kind.Filled? && last.value.order == Stamped(inc', ts) && inc' == inc'.Restated()
  }

  lemma TurnTellsIncoming(s: seq<OrderRec>, inc: OrderRec, own: int, ts: nat)
    requires SideInv(inc.side.Opposite(), s) && !Stops(s, inc) && !HasId(s, inc.id)
    ensures TellsIncoming(LastDb(ActEvents(ActOf(s, inc), inc.side, own, ts), inc.id), inc, IncAfter(s, inc), ts)
  {
    hide ActEvents;
    ActDb(ActOf(s, inc), inc.side, own, ts, inc.id);
    assert WellKept(inc.side.Opposite(), s[0]);
    assert s[0].id == inc.id ==> HasId(s, inc.id);
  }

  lemma {:induction false} SweepTellsIncoming(s: seq<OrderRec>, inc: OrderRec, own: int, ts: nat)
    requires SideInv(inc.side.Opposite(), s) && !HasId(s, inc.id)
    ensures TellsIncoming(LastDb(ActsEvents(Sweep(s, inc).acts, inc.side, own, ts), inc.id), inc, Sweep(s, inc).inc, ts)
    decreases if inc.rem > 0 then inc.rem else 0, |s|
  {
    if !Stops(s, inc) {
      hide ActEvents, ActsEvents, LastDb, ActOf;
      Progress(s, inc);
      TurnTail(inc.side.Opposite(), s, inc);
      var t, inc', a := RestAfter(s, inc), IncAfter(s, inc), ActOf(s, inc);
      var acts := Sweep(t, inc').acts;
      SweepTellsIncoming(t, inc', own, ts);
      SweepExit(t, inc');
      TurnTellsIncoming(s, inc, own, ts);
      ActsEventsCons(a, acts, inc.side, own, ts);
      LastDbAppend(ActEvents(a, inc.side, own, ts), ActsEvents(acts, inc.side, own, ts), inc.id);
    } else {
      assert Sweep(s, inc).acts == [];
    }
  }

  // ----- one request

  /** The events of a request tell of the id: from where it stood before to where it stands now. */
  ghost predicate StepTells(es: seq<Event>, b: Book, b': Book, id: nat) {
    Tells(LastDb(es, id), Lookup(b, id), Lookup(b', id))
  }

  lemma ClosingDb(b: Book, r: OrderRec, id: nat)
    requires AllSound(b.Of(r.side.Opposite()))
    ensures LastDb(ClosingEvents(b, r), id) == None
  {
    LastDbOf(ClosingEvents(b, r), id);
  }

  lemma AcceptedDb(r: OrderRec, id: nat)
    ensures LastDb([DbPlain(DbKind.Accepted, r, r.ts)], id) ==
      if id == r.id then Some(DbEvent(DbKind.Accepted, r, 0, 0, 0, 0)) else None
  {
    LastDbOf([DbPlain(DbKind.Accepted, r, r.ts)], id);
  }

  /** The events of a new order about an id: acceptance first, then the match, and nothing after it. */
  lemma NewDb(b: Book, r: OrderRec, replacing: bool, id: nat)
    requires AllSound(b.Of(r.side.Opposite()))
    ensures LastDb(NewEvents(b, r, replacing), id) ==
      Later(if !replacing && id == r.id then Some(DbEvent(DbKind.Accepted, r, 0, 0, 0, 0)) else None,
            LastDb(ActsEvents(Match(b, r).acts, r.side, Front(b.Of(r.side)), r.ts), id))
  {
    hide ActsEvents, Match, ClosingEvents;
    var es0 := if replacing then [] else [DbPlain(DbKind.Accepted, r, r.ts)];
    var es1 := ActsEvents(Match(b, r).acts, r.side, Front(b.Of(r.side)), r.ts);
    LastDbAppend(es0 + es1, ClosingEvents(b, r), id);
    LastDbAppend(es0, es1, id);
    ClosingDb(b, r, id);
    AcceptedDb(r, id);
  }

  /** A new order's own story: it rests with what its last event says, or its last event shows it closed. */
  lemma NewTells(b: Book, r: OrderRec, replacing: bool, id: nat)
    requires Inv(b) && Enterable(r) && r.qty >= 1 && !HasId(b.All(), r.id) && !Full(b)
    ensures AllSound(b.Of(r.side.Opposite()))
    ensures id != r.id || !replacing ==> StepTells(NewEvents(b, r, replacing), b, NewBook(b, r), id)
    ensures id == r.id && replacing ==> Lookup(NewBook(b, r), id) == None ==>
      StepTells(NewEvents(b, r, replacing), b, NewBook(b, r), id)
  {
    hide ActsEvents, NewEvents, Sweep, Inv;
    var other, own := r.side.Opposite(), b.Of(r.side);
    InvOf(b, other);
    InvOf(b, r.side);
    var m, b' := Match(b, r), NewBook(b, r);
    NewDb(b, r, replacing, id);
    FreshIn(b, r.side, r.id);
    NewKeepsInv(b, r);
    InvOf(b', r.side);
    SweepExit(b.Of(other), r);
    LookupEither(b, r.side, id);
    LookupEither(b', r.side, id);
    var final := Closing(m.inc);
    FindPlaced(own, final, id);
    if id == r.id {
      SweepTellsIncoming(b.Of(other), r, Front(own), r.ts);
      FindNone(b.Of(other), id);
      FindNone(own, id);
      SweepTail(other, b.Of(other), r);
      FindNone(m.rest, id);
    } else {
      SweepTells(b.Of(other), r, Front(own), r.ts, id);
      FindNone(b.Of(other), id);
      FindNone(own, id);
    }
  }

  lemma FindWithout(b: Book, r: OrderRec, id: nat)
    requires Inv(b) && Lookup(b, r.id) == Some(r)
    ensures Lookup(Without(b, r), id) == if id == r.id then None else Lookup(b, id)
  {
    Found(b, r.id);
    RemoveKeepsInv(b, r);
    InvOf(b, r.side);
    InvOf(Without(b, r), r.side);
    LookupEither(b, r.side, id);
    LookupEither(Without(b, r), r.side, id);
    FindRemoved(b.Of(r.side), r.id, id);
    FindNone(b.Of(r.side), r.id);
    FindNone(b.Of(r.side.Opposite()), r.id);
    FindNone(Without(b, r).All(), r.id);
  }

  lemma CancelTells(b: Book, r: OrderRec, ts: nat, id: nat)
    requires Inv(b) && Lookup(b, r.id) == Some(r)
    ensures StepTells(CancelEvents(b, r, ts), b, Without(b, r), id)
  {
    hide Inv;
    FindWithout(b, r, id);
    var es := CancelEvents(b, r, ts);
    LastDbAppend(es[..2], es[2..], id);
    LastDbOf(es[..2], id);
    LastDbOf(es[2..], id);
    assert es == es[..2] + es[2..];
  }

  lemma FindReduced(b: Book, r: OrderRec, qty: int, id: nat)
    requires Inv(b) && Lookup(b, r.id) == Some(r) && 1 <= qty < r.qty && r.rem >= r.qty - qty
    ensures Lookup(ReducedBook(b, r, qty), id) ==
      if id == r.id then (if Shrink(r, qty).state.Filled? then None else Some(Shrink(r, qty))) else Lookup(b, id)
  {
    hide Inv;
    var r' := Shrink(r, qty);
    if r'.state.Filled? {
      FindWithout(b, r, id);
    } else {
      Found(b, r.id);
      ReduceKeepsInv(b, r, qty);
      InvOf(b, r.side);
      InvOf(ReducedBook(b, r, qty), r.side);
      LookupEither(b, r.side, id);
      LookupEither(ReducedBook(b, r, qty), r.side, id);
      FindReplaced(b.Of(r.side), r', id);
      var i :| 0 <= i < |b.Of(r.side)| && b.Of(r.side)[i] == r;
      assert HasId(b.Of(r.side), r.id);
    }
  }

  /** A reduction in place reports itself, unless it takes exactly what was left. */
  lemma ReducedTells(b: Book, r: OrderRec, qty: int, ts: nat, id: nat)
    requires Inv(b) && Lookup(b, r.id) == Some(r) && 1 <= qty < r.qty && r.rem >= r.qty - qty
    ensures r.rem > r.qty - qty ==> StepTells(ReducedEvents(b, r, qty, ts), b, ReducedBook(b, r, qty), id)
    ensures r.rem == r.qty - qty ==> LastDb(ReducedEvents(b, r, qty, ts), id) == None
    ensures r.rem == r.qty - qty ==> Lookup(ReducedBook(b, r, qty), r.id) == None
  {
    hide Inv;
    Found(b, r.id);
    FindReduced(b, r, qty, id);
    FindReduced(b, r, qty, r.id);
    var es := ReducedEvents(b, r, qty, ts);
    if r.rem > r.qty - qty {
      LastDbAppend(es[..2], es[2..], id);
      LastDbOf(es[..2], id);
      LastDbOf(es[2..], id);
      assert es == es[..2] + es[2..];
    } else {
      LastDbOf(es, id);
    }
  }

  lemma PlacedDb(b: Book, x: nat, ts: nat, id: nat)
    ensures LastDb(PlacedEvents(b, x, ts), id) ==
      if Lookup(b, x).Some? && id == x
      then Some(DbEvent(DbKind.Modified, Stamped(Lookup(b, x).value, ts), 0, Lookup(b, x).value.rem, 0, 0)) else None
  {
    FindNone(b.All(), x);
    var es := PlacedEvents(b, x, ts);
    if es != [] {
      LastDbAppend(es[..1], es[1..], id);
      LastDbOf(es[..1], id);
      LastDbOf(es[1..], id);
      assert es == es[..1] + es[1..];
    } else {
      LastDbOf(es, id);
    }
  }

  function ReplacedEvents(b: Book, r: OrderRec, p: OrderRec): seq<Event>
    requires AllSound(Without(b, r).Of(p.side.Opposite()))
  {
    CancelEvents(b, r, p.ts) + NewEvents(Without(b, r), p, true) + PlacedEvents(NewBook(Without(b, r), p), p.id, p.ts)
  }

  /** A replacement is told as a cancellation, fills under the old id and, if it rests, a modification. */
  lemma ReplacedTells(b: Book, r: OrderRec, p: OrderRec, id: nat)
    requires Inv(b) && Lookup(b, r.id) == Some(r) && Enterable(p) && p.kind.Limit? && p.qty >= 1 && p.id == r.id
    requires p.side == r.side
    ensures AllSound(Without(b, r).Of(p.side.Opposite()))
    ensures StepTells(ReplacedEvents(b, r, p), b, NewBook(Without(b, r), p), id)
  {
    hide Inv, NewBook, NewEvents, CancelEvents, PlacedEvents;
    Found(b, r.id);
    RemoveKeepsInv(b, r);
    var gone := Without(b, r);
    InvOf(gone, p.side.Opposite());
    var b' := NewBook(gone, p);
    NewKeepsInv(gone, p);
    var es0, es1, es2 := CancelEvents(b, r, p.ts), NewEvents(gone, p, true), PlacedEvents(b', p.id, p.ts);
    CancelTells(b, r, p.ts, id);
    NewTells(gone, p, true, id);
    PlacedDb(b', p.id, p.ts, id);
    LastDbAppend(es0 + es1, es2, id);
    LastDbAppend(es0, es1, id);
    if Lookup(b', p.id).Some? {
      Found(b', p.id);
    }
  }

  // ----- whole runs

  /** The database, reading the events alone, knows exactly the resting orders. */
  ghost predicate Agree(out: seq<Event>, b: Book) {
    forall id :: Tells(LastDb(out, id), None, Lookup(b, id))
  }

  /** A reduction at the same price that takes exactly what was left: the order goes without a word. */
  predicate LandsExactly(b: Book, c: Cmd) {
    c.Modify? && Lookup(b, c.id).Some? &&
    var r := Lookup(b, c.id).value;
    ReducesInPlace(r, c.price, c.qty) && r.rem == r.qty - c.qty
  }

  /** What a live request adds to the events. */
  function Emitted(e: Engine, q: Request): seq<Event>
    requires Accepts(e.book, q.cmd)
  {
    var out := Step(e, q, false).out;
    if |e.out| <= |out| then out[|e.out|..] else []
  }

  lemma AddTells(e: Engine, q: Request, id: nat)
    requires Inv(e.book) && q.cmd.Add? && Orderly(q.cmd) && Accepts(e.book, q.cmd)
    ensures Step(e, q, false).out == e.out + Emitted(e, q)
    ensures StepTells(Emitted(e, q), e.book, Step(e, q, false).book, id)
  {
    hide Inv, NewBook, NewEvents;
    if !Full(e.book) {
      NewTells(e.book, q.Entering(), false, id);
      assert Emitted(e, q) == NewEvents(e.book, q.Entering(), false);
    }
  }

  lemma CancelStepTells(e: Engine, q: Request, id: nat)
    requires Inv(e.book) && q.cmd.Cancel?
    ensures Step(e, q, false).out == e.out + Emitted(e, q)
    ensures StepTells(Emitted(e, q), e.book, Step(e, q, false).book, id)
  {
    hide Inv, CancelEvents;
    if Lookup(e.book, q.cmd.id).Some? {
      var r := Lookup(e.book, q.cmd.id).value;
      Found(e.book, q.cmd.id);
      CancelTells(e.book, r, q.now, id);
      assert Emitted(e, q) == CancelEvents(e.book, r, q.now);
    }
  }

  lemma ReviseTells(e: Engine, q: Request, r: OrderRec, id: nat)
    requires Inv(e.book) && q.cmd.Modify? && Orderly(q.cmd) && Accepts(e.book, q.cmd)
    requires Lookup(e.book, q.cmd.id) == Some(r) && ReducesInPlace(r, q.cmd.price, q.cmd.qty)
    ensures Step(e, q, false).out == e.out + Emitted(e, q)
    ensures !LandsExactly(e.book, q.cmd) ==> StepTells(Emitted(e, q), e.book, Step(e, q, false).book, id)
    ensures LandsExactly(e.book, q.cmd) ==>
      LastDb(Emitted(e, q), id) == None && Lookup(Step(e, q, false).book, q.cmd.id) == None
  {
    hide Inv, ReducedEvents, ReducedBook;
    Found(e.book, q.cmd.id);
    if r.rem >= r.qty - q.cmd.qty {
      ReducedTells(e.book, r, q.cmd.qty, q.now, id);
      assert Emitted(e, q) == ReducedEvents(e.book, r, q.cmd.qty, q.now);
    }
  }

  lemma ReplaceTells(e: Engine, q: Request, r: OrderRec, id: nat)
    requires Inv(e.book) && q.cmd.Modify? && Orderly(q.cmd) && Accepts(e.book, q.cmd)
    requires Lookup(e.book, q.cmd.id) == Some(r) && !ReducesInPlace(r, q.cmd.price, q.cmd.qty)
    ensures Step(e, q, false).out == e.out + Emitted(e, q)
    ensures StepTells(Emitted(e, q), e.book, Step(e, q, false).book, id)
  {
    hide Inv, NewBook, NewEvents, CancelEvents, PlacedEvents, StepTells;
    Found(e.book, q.cmd.id);
    RemoveKeepsInv(e.book, r);
    ReplacedTells(e.book, r, Replacement(r, q.cmd.price, q.cmd.qty, q.now), id);
    assert Emitted(e, q) == ReplacedEvents(e.book, r, Replacement(r, q.cmd.price, q.cmd.qty, q.now));
  }

  lemma ModifyTells(e: Engine, q: Request, id: nat)
    requires Inv(e.book) && q.cmd.Modify? && Orderly(q.cmd) && Accepts(e.book, q.cmd)
    ensures Step(e, q, false).out == e.out + Emitted(e, q)
    ensures !LandsExactly(e.book, q.cmd) ==> StepTells(Emitted(e, q), e.book, Step(e, q, false).book, id)
    ensures LandsExactly(e.book, q.cmd) ==>
      LastDb(Emitted(e, q), id) == None && Lookup(Step(e, q, false).book, q.cmd.id) == None
  {
    hide Inv, Revised;
    if Lookup(e.book, q.cmd.id).Some? {
      var r := Lookup(e.book, q.cmd.id).value;
      if ReducesInPlace(r, q.cmd.price, q.cmd.qty) {
        ReviseTells(e, q, r, id);
      } else {
        ReplaceTells(e, q, r, id);
      }
    }
  }

  /** The agreement survives a request exactly when it is not a reduction to nothing. */
  lemma StepAgree(e: Engine, q: Request)
    requires Inv(e.book) && Agree(e.out, e.book) && Orderly(q.cmd) && Accepts(e.book, q.cmd)
    ensures Agree(Step(e, q, false).out, Step(e, q, false).book) <==> !LandsExactly(e.book, q.cmd)
  {
    hide Inv, Step, Orderly, Accepts;
    var e' := Step(e, q, false);
    if LandsExactly(e.book, q.cmd) {
      var id := q.cmd.id;
      ModifyTells(e, q, id);
      LastDbAppend(e.out, Emitted(e, q), id);
      assert Tells(LastDb(e.out, id), None, Lookup(e.book, id));
    } else {
      forall id ensures Tells(LastDb(e'.out, id), None, Lookup(e'.book, id)) {
        if q.cmd.Add? {
          AddTells(e, q, id);
        } else if q.cmd.Cancel? {
          CancelStepTells(e, q, id);
        } else {
          ModifyTells(e, q, id);
        }
        LastDbAppend(e.out, Emitted(e, q), id);
        assert Tells(LastDb(e.out, id), None, Lookup(e.book, id));
        TellsNext(LastDb(e.out, id), LastDb(Emitted(e, q), id), None, Lookup(e.book, id), Lookup(e'.book, id));
      }
    }
  }

  /** No request of the run reduces an order to nothing. */
  ghost predicate NeverLands(qs: seq<Request>) {
    qs == [] ||
    (NeverLands(qs[..|qs| - 1]) && Ready(EMPTY, qs[..|qs| - 1], false) &&
     !LandsExactly(Run(EMPTY, qs[..|qs| - 1], false).book, qs[|qs| - 1].cmd))
  }

  /** The database has been right about every order after every request of the run. */
  ghost predicate AlwaysAgrees(qs: seq<Request>)
    requires Ready(EMPTY, qs, false)
  {
    Agree(Run(EMPTY, qs, false).out, Run(EMPTY, qs, false).book) && (qs == [] || AlwaysAgrees(qs[..|qs| - 1]))
  }

  lemma {:induction false} RunAgree(qs: seq<Request>)
    requires Lawful(qs)
    ensures Ready(EMPTY, qs, false)
    ensures AlwaysAgrees(qs) <==> NeverLands(qs)
  {
    hide Inv, Step, Accepts, LandsExactly;
    RunInv(qs, false);
    if qs == [] {
      assert EMPTY.book.All() == [];
    } else {
      var init, q := qs[..|qs| - 1], qs[|qs| - 1];
      assert forall i :: 0 <= i < |init| ==> init[i] == qs[i];
      RunInv(init, false);
      RunAgree(init);
      if AlwaysAgrees(init) {
        StepAgree(Run(EMPTY, init, false), q);
      }
    }
  }

  // ----- the published quote

  /** The best bid and ask that the last trade print or book update carried; zero before any. */
  function LastQuote(out: seq<Event>): (int, int) {
    if out == [] then (0, 0)
    else
      match out[|out| - 1]
      case QuoteUpdate(bid, ask, _) => (bid, ask)
      case TradePrint(_, _, _, bid, ask, _) => (bid, ask)
      case _ => LastQuote(out[..|out| - 1])
  }

  function BestOf(b: Book): (int, int) {
    (Front(b.bids), Front(b.asks))
  }

  predicate Quotes(ev: Event) {
    ev.QuoteUpdate? || ev.TradePrint?
  }

  /** Events behind which the last quote is the book's own, if it was before. */
  ghost predicate Freshens(es: seq<Event>, b: Book, b': Book) {
    forall out: seq<Event> :: LastQuote(out) == BestOf(b) ==> LastQuote(out + es) == BestOf(b')
  }

  lemma {:induction false} QuietTail(out: seq<Event>, es: seq<Event>)
    requires forall i :: 0 <= i < |es| ==> !Quotes(es[i])
    ensures LastQuote(out + es) == LastQuote(out)
  {
    if es == [] {
      assert out + es == out;
    } else {
      QuietTail(out, es[..|es| - 1]);
      assert (out + es)[..|out + es| - 1] == out + es[..|es| - 1];
    }
  }

  /** A quote with nothing but other events behind it is the last. */
  lemma QuotedAt(out: seq<Event>, es: seq<Event>, k: nat)
    requires k < |es| && Quotes(es[k]) && forall i :: k < i < |es| ==> !Quotes(es[i])
    ensures LastQuote(out + es) == LastQuote([es[k]])
  {
    var head := out + es[..k + 1];
    QuietTail(head, es[k + 1..]);
    assert out + es == head + es[k + 1..];
    assert head[|head| - 1] == es[k];
  }

  ghost function QuoteFor(side: Side, own: int, best: int): (int, int) {
    if side.Buy? then (own, best) else (best, own)
  }

  lemma ActQuote(s: seq<OrderRec>, inc: OrderRec, own: int, ts: nat, out: seq<Event>)
    requires s != []
    ensures LastQuote(out + ActEvents(ActOf(s, inc), inc.side, own, ts)) ==
      QuoteFor(inc.side, own, Front(RestAfter(s, inc)))
  {
    var a := ActOf(s, inc);
    QuotedAt(out, ActEvents(a, inc.side, own, ts), if a.SelfCancel? then 0 else 4);
  }

  lemma {:induction false} ActsQuote(s: seq<OrderRec>, inc: OrderRec, own: int, ts: nat, out: seq<Event>)
    requires AllSound(s) && LastQuote(out) == QuoteFor(inc.side, own, Front(s))
    ensures LastQuote(out + ActsEvents(Sweep(s, inc).acts, inc.side, own, ts)) ==
      QuoteFor(inc.side, own, Front(Sweep(s, inc).rest))
    decreases if inc.rem > 0 then inc.rem else 0, |s|
  {
    if Stops(s, inc) {
      assert ActsEvents(Sweep(s, inc).acts, inc.side, own, ts) == [] && out + [] == out;
    } else {
      hide ActsEvents, ActEvents, LastQuote, ActOf, QuoteFor, RestAfter, IncAfter;
      Progress(s, inc);
      var a, t, inc' := ActOf(s, inc), RestAfter(s, inc), IncAfter(s, inc);
      var es, more := ActEvents(a, inc.side, own, ts), ActsEvents(Sweep(t, inc').acts, inc.side, own, ts);
      TurnKeepsSide(s, inc);
      ActQuote(s, inc, own, ts, out);
      ActsQuote(t, inc', own, ts, out + es);
      ActsEventsCons(a, Sweep(t, inc').acts, inc.side, own, ts);
      Regroup(out, es, more);
    }
  }

  lemma TurnKeepsSide(s: seq<OrderRec>, inc: OrderRec)
    requires s != []
    ensures IncAfter(s, inc).side == inc.side
  {
  }

  lemma Regroup(a: seq<Event>, b: seq<Event>, c: seq<Event>)
    ensures a + (b + c) == a + b + c
  {
  }

  lemma ClosingQuote(b: Book, r: OrderRec, out: seq<Event>)
    requires AllSound(b.Of(r.side.Opposite()))
    requires LastQuote(out) == QuoteFor(r.side, Front(b.Of(r.side)), Front(Match(b, r).rest))
    ensures LastQuote(out + ClosingEvents(b, r)) == BestOf(NewBook(b, r))
  {
    hide Match;
    var es := ClosingEvents(b, r);
    ClosesOnSide(b, r);
    if es != [] && Quotes(es[0]) {
      QuotedAt(out, es, 0);
    } else {
      QuietTail(out, es);
    }
  }

  lemma ClosesOnSide(b: Book, r: OrderRec)
    requires AllSound(b.Of(r.side.Opposite()))
    ensures Closing(Match(b, r).inc).side == r.side
  {
    SweepExit(b.Of(r.side.Opposite()), r);
  }

  lemma NewQuote(b: Book, r: OrderRec, replacing: bool, out: seq<Event>)
    requires AllSound(b.Of(r.side.Opposite())) && LastQuote(out) == BestOf(b)
    ensures LastQuote(out + NewEvents(b, r, replacing)) == BestOf(NewBook(b, r))
  {
    hide Sweep, ActsEvents, ClosingEvents, NewBook, LastQuote;
    var s, own := b.Of(r.side.Opposite()), Front(b.Of(r.side));
    var es0 := if replacing then [] else [DbPlain(DbKind.Accepted, r, r.ts)];
    var es1, es2 := ActsEvents(Match(b, r).acts, r.side, own, r.ts), ClosingEvents(b, r);
    QuietTail(out, es0);
    ActsQuote(s, r, own, r.ts, out + es0);
    ClosingQuote(b, r, out + es0 + es1);
    assert out + NewEvents(b, r, replacing) == out + es0 + es1 + es2;
  }

  lemma NewFreshens(b: Book, r: OrderRec, replacing: bool)
    requires AllSound(b.Of(r.side.Opposite()))
    ensures Freshens(NewEvents(b, r, replacing), b, NewBook(b, r))
  {
    forall out: seq<Event> | LastQuote(out) == BestOf(b)
      ensures LastQuote(out + NewEvents(b, r, replacing)) == BestOf(NewBook(b, r))
    {
      NewQuote(b, r, replacing, out);
    }
  }

  lemma CancelFreshens(b: Book, r: OrderRec, ts: nat)
    ensures Freshens(CancelEvents(b, r, ts), b, Without(b, r))
  {
    forall out: seq<Event> ensures LastQuote(out + CancelEvents(b, r, ts)) == BestOf(Without(b, r)) {
      QuotedAt(out, CancelEvents(b, r, ts), 0);
    }
  }

  lemma ReducedFreshens(b: Book, r: OrderRec, qty: int, ts: nat)
    ensures Freshens(ReducedEvents(b, r, qty, ts), b, ReducedBook(b, r, qty))
  {
    forall out: seq<Event> ensures LastQuote(out + ReducedEvents(b, r, qty, ts)) == BestOf(ReducedBook(b, r, qty)) {
      QuotedAt(out, ReducedEvents(b, r, qty, ts), 0);
    }
  }

  lemma ReplacedQuote(e: Engine, r: OrderRec, price: int, qty: int, ts: nat)
    requires AllSound(e.book.bids) && AllSound(e.book.asks) && Lookup(e.book, r.id) == Some(r)
    requires LastQuote(e.out) == BestOf(e.book)
    ensures LastQuote(Replaced(e, r, price, qty, ts, false).out) == BestOf(Replaced(e, r, price, qty, ts, false).book)
  {
    hide NewBook, NewEvents, CancelEvents, Lookup;
    RemoveKeepsSound(e.book.Of(r.side), r.id);
    var gone, p := OnCancel(e, r.id, ts, false), Replacement(r, price, qty, ts);
    CancelFreshens(e.book, r, ts);
    if !r.state.Filled? {
      var entered := OnNew(gone, p, Mode(false, true));
      if !Full(gone.book) {
        NewFreshens(gone.book, p, true);
      }
      QuietTail(entered.out, PlacedEvents(entered.book, r.id, ts));
    }
  }

  lemma StepQuote(e: Engine, q: Request)
    requires Accepts(e.book, q.cmd) && LastQuote(e.out) == BestOf(e.book)
    ensures LastQuote(Step(e, q, false).out) == BestOf(Step(e, q, false).book)
  {
    hide NewBook, NewEvents, CancelEvents, ReducedEvents, ReducedBook, Replaced, LastQuote;
    assert e.out + [] == e.out;
    match q.cmd {
      case Add(_, _, _, _, _, _, _) => NewFreshens(e.book, q.Entering(), false);
      case Cancel(id) =>
        if Lookup(e.book, id).Some? {
          CancelFreshens(e.book, Lookup(e.book, id).value, q.now);
        }
      case Modify(id, price, qty) =>
        if Lookup(e.book, id).Some? {
          var r := Lookup(e.book, id).value;
          FindNone(e.book.All(), id);
          if ReducesInPlace(r, price, qty) {
            ReducedFreshens(e.book, r, qty, q.now);
          } else {
            ReplacedQuote(e.(log := e.log + [q.cmd]), r, price, qty, q.now);
          }
        }
    }
  }

  /** After every request of every run the last quote is the book's best bid and ask. */
  lemma {:induction false} RunQuote(qs: seq<Request>)
    requires Ready(EMPTY, qs, false)
    ensures LastQuote(Run(EMPTY, qs, false).out) == BestOf(Run(EMPTY, qs, false).book)
  {
    if qs != [] {
      RunQuote(qs[..|qs| - 1]);
      StepQuote(Run(EMPTY, qs[..|qs| - 1], false), qs[|qs| - 1]);
    }
  }
}
