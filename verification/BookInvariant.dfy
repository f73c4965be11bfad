/**
 What every run keeps of the book: sorted, sound and never crossed, every id once. The one thing that
 breaks it is an order entered or re-entered without a quantity.
 */
module BookInvariants {
  import opened CoreTypes
  import opened PriceTime
  import opened Pools
  import opened Sweeps
  import opened EngineSpec
  import opened Runs

  /** A resting order: a limit order of its side, partly open, in the state its remainder calls for. */
  predicate WellKept(side: Side, r: OrderRec) {
    r.side == side && r.kind.Limit? && Sound(r) && r == r.Restated() && 0 <= r.price < U64
  }

  ghost predicate SideInv(side: Side, s: seq<OrderRec>) {
    && Sorted(side, s) && UniqueIds(s)
    && forall i :: 0 <= i < |s| ==> WellKept(side, s[i])
  }

  predicate Uncrossed(bids: seq<OrderRec>, asks: seq<OrderRec>) {
    bids != [] && asks != [] ==> bids[0].price < asks[0].price
  }

  ghost predicate Apart(s: seq<OrderRec>, t: seq<OrderRec>) {
    forall id :: HasId(s, id) ==> !HasId(t, id)
  }

  ghost predicate Inv(b: Book) {
    && SideInv(Buy, b.bids) && SideInv(Sell, b.asks)
    && Apart(b.bids, b.asks) && Uncrossed(b.bids, b.asks)
    && |b.All()| <= MAX_ORDERS
  }

  // ----- ids under each edit

  lemma {:induction false} PlaceIds(s: seq<OrderRec>, r: OrderRec, id: nat)
    ensures HasId(Place(s, r), id) <==> HasId(s, id) || id == r.id
  {
    if s == [] || !Ahead(r.side, s[0].price, r.price) {
      ConsIds(r, s, id);
    } else {
      PlaceIds(s[1..], r, id);
      ConsIds(s[0], s[1..], id);
      ConsIds(s[0], Place(s[1..], r), id);
      assert [s[0]] + s[1..] == s;
    }
  }

  lemma ConsIds(x: OrderRec, s: seq<OrderRec>, id: nat)
    ensures HasId([x] + s, id) <==> x.id == id || HasId(s, id)
  {
    var t := [x] + s;
    if x.id == id {
      assert t[0].id == id;
    }
    if i :| 0 <= i < |s| && s[i].id == id {
      assert t[i + 1].id == id;
    }
    if i :| 0 <= i < |t| && t[i].id == id {
      assert i > 0 ==> s[i - 1].id == id;
    }
  }

  lemma {:induction false} RemoveIds(s: seq<OrderRec>, x: nat, id: nat)
    ensures HasId(RemoveId(s, x), id) <==> HasId(s, id) && id != x
    ensures |RemoveId(s, x)| <= |s| && (HasId(s, x) ==> |RemoveId(s, x)| < |s|)
  {
    if s != [] {
      RemoveIds(s[1..], x, id);
      ConsIds(s[0], s[1..], x);
      ConsIds(s[0], s[1..], id);
      ConsIds(s[0], RemoveId(s[1..], x), id);
      assert [s[0]] + s[1..] == s;
    }
  }

  lemma ReplaceIds(s: seq<OrderRec>, r: OrderRec, id: nat)
    ensures HasId(ReplaceId(s, r), id) <==> HasId(s, id)
  {
    ReplaceShape(s, r);
    if i :| 0 <= i < |s| && s[i].id == id {
      assert ReplaceId(s, r)[i].id == id;
    }
    if i :| 0 <= i < |s| && ReplaceId(s, r)[i].id == id {
      assert s[i].id == id;
    }
  }

  // ----- one side

  /** What a sweep leaves is a tail of the side, its front order perhaps reduced. */
  lemma {:induction false} SweepTail(side: Side, s: seq<OrderRec>, inc: OrderRec)
    requires SideInv(side, s)
    ensures SideInv(side, Sweep(s, inc).rest)
    ensures s != [] && Sweep(s, inc).rest != [] ==> Ahead(side, s[0].price, Sweep(s, inc).rest[0].price)
    ensures |Sweep(s, inc).rest| <= |s|
    ensures forall id :: HasId(Sweep(s, inc).rest, id) ==> HasId(s, id)
    decreases if inc.rem > 0 then inc.rem else 0, |s|
  {
    if !Stops(s, inc) {
      Progress(s, inc);
      TurnTail(side, s, inc);
      SweepTail(side, RestAfter(s, inc), IncAfter(s, inc));
    }
  }

  /** Without its front order a side is still in order. */
  lemma TailInv(side: Side, s: seq<OrderRec>)
    requires SideInv(side, s) && s != []
    ensures SideInv(side, s[1..]) && (s[1..] != [] ==> Ahead(side, s[0].price, s[1..][0].price))
    ensures forall id :: HasId(s[1..], id) ==> HasId(s, id)
  {
    forall id | HasId(s[1..], id) ensures HasId(s, id) {
      var i :| 0 <= i < |s[1..]| && s[1..][i].id == id;
      assert s[i + 1].id == id;
    }
  }

  /** And with its front order cut to another of the same price and id. */
  lemma FrontInv(side: Side, s: seq<OrderRec>, r: OrderRec)
    requires SideInv(side, s) && s != [] && WellKept(side, r) && r.id == s[0].id && r.price == s[0].price
    ensures SideInv(side, [r] + s[1..])
    ensures forall id :: HasId([r] + s[1..], id) ==> HasId(s, id)
  {
    var t := [r] + s[1..];
    assert forall i :: 0 <= i < |t| ==> t[i].id == s[i].id && t[i].price == s[i].price;
    forall id | HasId(t, id) ensures HasId(s, id) {
      var i :| 0 <= i < |t| && t[i].id == id;
      assert s[i].id == id;
    }
  }

  lemma TurnTail(side: Side, s: seq<OrderRec>, inc: OrderRec)
    requires SideInv(side, s) && !Stops(s, inc)
    ensures SideInv(side, RestAfter(s, inc))
    ensures RestAfter(s, inc) != [] ==> Ahead(side, s[0].price, RestAfter(s, inc)[0].price)
    ensures forall id :: HasId(RestAfter(s, inc), id) ==> HasId(s, id)
  {
    TailInv(side, s);
    assert WellKept(side, s[0]);
    hide SideInv, HasId;
    if RestAfter(s, inc) != s[1..] {
      FrontInv(side, s, Reduced(s[0], Min(inc.rem, s[0].rem)));
    }
  }

  lemma PlaceInv(side: Side, s: seq<OrderRec>, r: OrderRec)
    requires SideInv(side, s) && WellKept(side, r) && !HasId(s, r.id)
    ensures SideInv(side, Place(s, r)) && |Place(s, r)| == |s| + 1
  {
    PlaceSorted(s, r);
    PlaceUnique(s, r);
  }

  lemma RemoveInv(side: Side, s: seq<OrderRec>, id: nat)
    requires SideInv(side, s)
    ensures SideInv(side, RemoveId(s, id))
    ensures RemoveId(s, id) != [] ==> Ahead(side, s[0].price, RemoveId(s, id)[0].price)
  {
    RemoveSorted(side, s, id);
    RemoveUnique(s, id);
    var t := RemoveId(s, id);
    assert forall i :: 0 <= i < |t| ==> t[i] in s;
  }

  lemma ReplaceInv(side: Side, s: seq<OrderRec>, r: OrderRec)
    requires SideInv(side, s) && WellKept(side, r)
    requires forall i :: 0 <= i < |s| && s[i].id == r.id ==> s[i].price == r.price
    ensures SideInv(side, ReplaceId(s, r))
    ensures s != [] ==> ReplaceId(s, r) != [] && ReplaceId(s, r)[0].price == s[0].price
  {
    ReplaceShape(s, r);
  }

  // ----- the whole book

  lemma InvOf(b: Book, side: Side)
    requires Inv(b)
    ensures SideInv(side, b.Of(side)) && AllSound(b.Of(side)) && Apart(b.Of(side), b.Of(side.Opposite()))
    ensures |b.Of(side)| + |b.Of(side.Opposite())| == |b.All()| <= MAX_ORDERS
  {
  }

  /** The invariant, told from either side. */
  lemma InvFrom(b: Book, side: Side)
    requires SideInv(side, b.Of(side)) && SideInv(side.Opposite(), b.Of(side.Opposite()))
    requires Apart(b.Of(side), b.Of(side.Opposite())) && Uncrossed(b.bids, b.asks)
    requires |b.Of(side)| + |b.Of(side.Opposite())| <= MAX_ORDERS
    ensures Inv(b)
  {
  }

  lemma FreshIn(b: Book, side: Side, id: nat)
    ensures HasId(b.All(), id) <==> HasId(b.Of(side), id) || HasId(b.Of(side.Opposite()), id)
  {
    HasIdEither(b, id);
  }

  lemma InvUnique(b: Book)
    requires Inv(b)
    ensures UniqueIds(b.All())
  {
    forall i, j | 0 <= i < j < |b.All()| ensures b.All()[i].id != b.All()[j].id {
      if i < |b.bids| <= j {
        assert HasId(b.bids, b.bids[i].id);
        assert b.asks[j - |b.bids|] == b.All()[j];
      }
    }
  }

  /** An order that the book can take in: untouched, with a quantity and a price of its own. */
  predicate Enterable(r: OrderRec) {
    Untouched(r) && (r.kind.Limit? ==> 0 <= r.price < U64)
  }

  /** Matching stops at the first price out of reach, so what comes to rest does not cross. */
  lemma NewKeepsInv(b: Book, r: OrderRec)
    requires Inv(b) && Enterable(r) && r.qty >= 1 && !HasId(b.All(), r.id) && !Full(b)
    ensures AllSound(b.Of(r.side.Opposite())) && Inv(NewBook(b, r))
  {
    hide SideInv, Apart;
    var other := r.side.Opposite();
    InvOf(b, r.side);
    InvOf(b, other);
    SweepTail(other, b.Of(other), r);
    SweepExit(b.Of(other), r);
    var m := Match(b, r);
    var final := Closing(m.inc);
    var b' := NewBook(b, r);
    FreshIn(b, r.side, r.id);
    if Rests(final) {
      PlaceInv(r.side, b.Of(r.side), final);
      FrontAfterPlace(b.Of(r.side), final);
    }
    ApartAfter(b.Of(r.side), b.Of(other), m.rest, final);
    InvFrom(b', r.side);
  }

  lemma FrontAfterPlace(s: seq<OrderRec>, r: OrderRec)
    ensures Place(s, r) != [] && (Place(s, r)[0] == r || (s != [] && Place(s, r)[0] == s[0]))
  {
  }

  lemma ApartAfter(s: seq<OrderRec>, t: seq<OrderRec>, t': seq<OrderRec>, r: OrderRec)
    requires Apart(s, t) && !HasId(t, r.id) && forall id :: HasId(t', id) ==> HasId(t, id)
    ensures Apart(s, t') && Apart(Place(s, r), t')
  {
    forall id | HasId(Place(s, r), id) ensures !HasId(t', id) {
      PlaceIds(s, r, id);
    }
  }

  lemma RemoveKeepsInv(b: Book, r: OrderRec)
    requires Inv(b)
    ensures Inv(Without(b, r))
    ensures forall id :: HasId(Without(b, r).All(), id) ==> HasId(b.All(), id)
    ensures r in b.Of(r.side) ==> !HasId(Without(b, r).All(), r.id) && !Full(Without(b, r))
  {
    hide SideInv;
    var b', other := Without(b, r), r.side.Opposite();
    InvOf(b, r.side);
    InvOf(b, other);
    RemoveInv(r.side, b.Of(r.side), r.id);
    forall id ensures HasId(b'.Of(r.side), id) <==> HasId(b.Of(r.side), id) && id != r.id {
      RemoveIds(b.Of(r.side), r.id, id);
    }
    RemoveIds(b.Of(r.side), r.id, r.id);
    InvFrom(b', r.side);
    forall id ensures HasId(b'.All(), id) <==> HasId(b'.Of(r.side), id) || HasId(b.Of(other), id) {
      FreshIn(b', r.side, id);
    }
    forall id ensures HasId(b.All(), id) <==> HasId(b.Of(r.side), id) || HasId(b.Of(other), id) {
      FreshIn(b, r.side, id);
    }
    if r in b.Of(r.side) {
      var i :| 0 <= i < |b.Of(r.side)| && b.Of(r.side)[i] == r;
      assert HasId(b.Of(r.side), r.id);
    }
  }

  lemma Found(b: Book, id: nat)
    requires Inv(b) && Lookup(b, id).Some?
    ensures var r := Lookup(b, id).value;
      r in b.Of(r.side) && WellKept(r.side, r) && r.id == id
    ensures var r := Lookup(b, id).value;
      forall i :: 0 <= i < |b.Of(r.side)| && b.Of(r.side)[i].id == id ==> b.Of(r.side)[i] == r
  {
    FindNone(b.All(), id);
    var r := Lookup(b, id).value;
    assert r in b.bids || r in b.asks;
  }

  lemma ReduceKeepsInv(b: Book, r: OrderRec, qty: int)
    requires Inv(b) && Lookup(b, r.id) == Some(r) && 1 <= qty < r.qty && r.rem >= r.qty - qty
    ensures Inv(ReducedBook(b, r, qty))
  {
    Found(b, r.id);
    RemoveKeepsInv(b, r);
    var r', other := Shrink(r, qty), r.side.Opposite();
    if !r'.state.Filled? {
      InvOf(b, r.side);
      InvOf(b, other);
      ReplaceInv(r.side, b.Of(r.side), r');
      ReplaceShape(b.Of(r.side), r');
      forall id ensures HasId(ReplaceId(b.Of(r.side), r'), id) <==> HasId(b.Of(r.side), id) {
        ReplaceIds(b.Of(r.side), r', id);
      }
      InvFrom(ReducedBook(b, r, qty), r.side);
    }
  }

  // ----- orders without a quantity

  /** An order with nothing left rests on the book. */
  ghost predicate HasDead(b: Book) {
    exists side, i :: 0 <= i < |b.Of(side)| && b.Of(side)[i].rem <= 0
  }

  lemma DeadBreaks(b: Book)
    requires HasDead(b)
    ensures !Inv(b)
  {
    var side, i :| 0 <= i < |b.Of(side)| && b.Of(side)[i].rem <= 0;
    assert SideInv(side, b.Of(side)) ==> WellKept(side, b.Of(side)[i]);
  }

  lemma {:induction false} PlaceHas(s: seq<OrderRec>, r: OrderRec)
    ensures r in Place(s, r)
  {
    if s != [] && Ahead(r.side, s[0].price, r.price) {
      PlaceHas(s[1..], r);
    }
  }

  /** A limit order without quantity meets no one and comes to rest. */
  lemma StillbornRests(b: Book, r: OrderRec)
    requires AllSound(b.Of(r.side.Opposite())) && Enterable(r) && r.kind.Limit? && r.qty <= 0
    ensures HasDead(NewBook(b, r))
  {
    var b' := NewBook(b, r);
    PlaceHas(b.Of(r.side), r);
    var i :| 0 <= i < |b'.Of(r.side)| && b'.Of(r.side)[i] == r;
    assert b'.Of(r.side)[i].rem <= 0;
  }

  lemma CutToNothingStays(b: Book, r: OrderRec)
    requires Inv(b) && Lookup(b, r.id) == Some(r) && r.rem == r.qty
    ensures HasDead(ReducedBook(b, r, 0))
  {
    Found(b, r.id);
    ReplaceShape(b.Of(r.side), Shrink(r, 0));
    var i :| 0 <= i < |b.Of(r.side)| && b.Of(r.side)[i] == r;
    assert ReducedBook(b, r, 0).Of(r.side)[i].rem <= 0;
  }

  lemma {:induction false} FillsOutput(acts: seq<Act>, side: Side, own: int, ts: nat)
    requires forall i :: 0 <= i < |acts| ==> acts[i].Fill?
    ensures |ActsTrades(acts)| == |acts| && |ActsEvents(acts, side, own, ts)| == 5 * |acts|
  {
    if acts != [] {
      FillsOutput(acts[..|acts| - 1], side, own, ts);
    }
  }

  /** Matching against such an order never ends, and writes as it turns: n trade lines and 5n events
      after n turns, for every n. */
  lemma StallOutput(s: seq<OrderRec>, inc: OrderRec, n: nat, side: Side, own: int, ts: nat)
    requires Stalls(s, inc)
    ensures |ActsTrades(Turns(s, inc, n).acts)| == n && |ActsEvents(Turns(s, inc, n).acts, side, own, ts)| == 5 * n
  {
    ZeroQuantityStalls(s, inc, n);
    FillsOutput(Turns(s, inc, n).acts, side, own, ts);
  }

  // ----- one request

  /** Whether a request leaves no order without a quantity behind, as a caller could tell beforehand. */
  predicate Harmless(b: Book, c: Cmd) {
    match c
    case Add(_, _, _, kind, _, qty, _) => qty >= 1 || kind.Market? || Full(b)
    case Cancel(_) => true
    case Modify(id, price, qty) =>
      qty >= 1 || Lookup(b, id).None? ||
      (price == Lookup(b, id).value.price && Lookup(b, id).value.rem < Lookup(b, id).value.qty - qty)
  }

  lemma EmptyMarketVanishes(b: Book, r: OrderRec)
    requires Inv(b) && Enterable(r) && r.kind.Market? && r.qty <= 0
    ensures NewBook(b, r) == b
  {
  }

  lemma ReplacementInv(e: Engine, r: OrderRec, price: int, qty: int, ts: nat, quiet: bool)
    requires Inv(e.book) && Lookup(e.book, r.id) == Some(r) && 0 <= price < U64
    ensures Inv(Replaced(e, r, price, qty, ts, quiet).book) <==> qty >= 1
    ensures forall id :: HasId(Replaced(e, r, price, qty, ts, quiet).book.All(), id) ==>
      HasId(e.book.All(), id) || id == r.id
  {
    hide Inv, NewBook, Full;
    Found(e.book, r.id);
    RemoveKeepsInv(e.book, r);
    var gone, p := Without(e.book, r), Replacement(r, price, qty, ts);
    InvOf(gone, r.side.Opposite());
    if qty >= 1 {
      NewKeepsInv(gone, p);
    } else {
      StillbornRests(gone, p);
      DeadBreaks(NewBook(gone, p));
    }
    NewBookIds(gone, p);
  }

  lemma NewBookIds(b: Book, r: OrderRec)
    requires AllSound(b.Of(r.side.Opposite()))
    ensures forall id :: HasId(NewBook(b, r).All(), id) ==> HasId(b.All(), id) || id == r.id
  {
    var s, t, final := b.Of(r.side), Match(b, r).rest, Closing(Match(b, r).inc);
    SweepExit(b.Of(r.side.Opposite()), r);
    forall id | HasId(NewBook(b, r).All(), id) ensures HasId(b.All(), id) || id == r.id {
      FreshIn(NewBook(b, r), r.side, id);
      FreshIn(b, r.side, id);
      PlaceIds(s, final, id);
      if HasId(t, id) {
        SweepIds(b.Of(r.side.Opposite()), r, id);
      }
    }
  }

  /** The invariant survives a request exactly when the request is harmless. */
  lemma StepInv(e: Engine, q: Request, quiet: bool)
    requires Inv(e.book) && Accepts(e.book, q.cmd)
    ensures Inv(Step(e, q, quiet).book) <==> Harmless(e.book, q.cmd)
  {
    hide Inv, NewBook, ReducedBook, Replaced;
    match q.cmd {
      case Add(id, _, _, kind, _, qty, _) =>
        var r := q.Entering();
        if !Full(e.book) {
          if qty >= 1 {
            NewKeepsInv(e.book, r);
          } else if kind.Market? {
            EmptyMarketVanishes(e.book, r);
          } else {
            StillbornRests(e.book, r);
            DeadBreaks(NewBook(e.book, r));
          }
        }
      case Cancel(id) =>
        if Lookup(e.book, id).Some? {
          RemoveKeepsInv(e.book, Lookup(e.book, id).value);
        }
      case Modify(id, price, qty) =>
        if Lookup(e.book, id).Some? {
          ModifyInv(e, id, price, qty, q.now, quiet);
        }
    }
  }

  lemma ModifyInv(e: Engine, id: nat, price: int, qty: int, ts: nat, quiet: bool)
    requires Inv(e.book) && Lookup(e.book, id).Some? && 0 <= price < U64
    ensures AllSound(e.book.bids) && AllSound(e.book.asks)
    ensures Inv(OnModify(e, id, price, qty, ts, quiet).book) <==> Harmless(e.book, Cmd.Modify(id, price, qty))
    ensures forall x :: HasId(OnModify(e, id, price, qty, ts, quiet).book.All(), x) ==> HasId(e.book.All(), x)
  {
    hide Inv, ReducedBook, Replaced, SideInv;
    var r := Lookup(e.book, id).value;
    Found(e.book, id);
    FindNone(e.book.All(), id);
    InvOf(e.book, Buy);
    InvOf(e.book, Sell);
    if !ReducesInPlace(r, price, qty) {
      var logged := if quiet then e else e.(log := e.log + [Cmd.Modify(id, price, qty)]);
      ReplacementInv(logged, r, price, qty, ts, quiet);
    } else if r.rem >= r.qty - qty {
      if qty >= 1 {
        ReduceKeepsInv(e.book, r, qty);
      } else {
        CutToNothingStays(e.book, r);
        DeadBreaks(ReducedBook(e.book, r, 0));
      }
      ReducedIds(e.book, r, qty);
    }
  }

  lemma ReducedIds(b: Book, r: OrderRec, qty: int)
    requires Inv(b) && Lookup(b, r.id) == Some(r)
    ensures forall id :: HasId(ReducedBook(b, r, qty).All(), id) ==> HasId(b.All(), id)
  {
    RemoveKeepsInv(b, r);
    var r', b' := Shrink(r, qty), ReducedBook(b, r, qty);
    if !r'.state.Filled? {
      forall id | HasId(b'.All(), id) ensures HasId(b.All(), id) {
        FreshIn(b', r.side, id);
        FreshIn(b, r.side, id);
        ReplaceIds(b.Of(r.side), r', id);
      }
    }
  }

  lemma StepIds(e: Engine, q: Request, quiet: bool)
    requires Inv(e.book) && Accepts(e.book, q.cmd)
    ensures forall id :: HasId(Step(e, q, quiet).book.All(), id) ==>
      HasId(e.book.All(), id) || (q.cmd.Add? && id == q.cmd.id)
  {
    hide Inv, NewBook, ReducedBook, Replaced;
    match q.cmd {
      case Add(_, _, _, _, _, _, _) => NewBookIds(e.book, q.Entering());
      case Cancel(id) =>
        if Lookup(e.book, id).Some? {
          RemoveKeepsInv(e.book, Lookup(e.book, id).value);
        }
      case Modify(id, price, qty) =>
        if Lookup(e.book, id).Some? {
          ModifyInv(e, id, price, qty, q.now, quiet);
        }
    }
  }

  // ----- whole runs

  /** Quantities of at least one, and prices the index can hold. */
  predicate Orderly(c: Cmd) {
    match c
    case Add(_, _, _, kind, price, qty, _) => qty >= 1 && (kind.Limit? ==> 0 <= price < U64)
    case Cancel(_) => true
    case Modify(_, price, qty) => qty >= 1 && 0 <= price < U64
  }

  /** A run of orderly requests in which no id is entered twice. */
  ghost predicate Lawful(qs: seq<Request>) {
    && (forall i :: 0 <= i < |qs| ==> Orderly(qs[i].cmd))
    && (forall i, j :: 0 <= i < j < |qs| && qs[i].cmd.Add? && qs[j].cmd.Add? ==> qs[i].cmd.id != qs[j].cmd.id)
  }

  predicate Entered(qs: seq<Request>, id: nat) {
    exists i :: 0 <= i < |qs| && qs[i].cmd.Add? && qs[i].cmd.id == id
  }

  lemma OrderlyAccepted(b: Book, c: Cmd)
    requires Inv(b) && Orderly(c) && (c.Add? ==> !HasId(b.All(), c.id))
    ensures Accepts(b, c) && Harmless(b, c)
  {
  }

  /** Every lawful run finds the engine ready for each of its requests and keeps the book invariant. */
  lemma {:induction false} RunInv(qs: seq<Request>, quiet: bool)
    requires Lawful(qs)
    ensures Ready(EMPTY, qs, quiet) && Inv(Run(EMPTY, qs, quiet).book)
    ensures forall id :: HasId(Run(EMPTY, qs, quiet).book.All(), id) ==> Entered(qs, id)
  {
    hide Inv, Step, Accepts, Harmless;
    if qs == [] {
      EmptyInv();
    } else {
      var init, q := qs[..|qs| - 1], qs[|qs| - 1];
      RunInv(init, quiet);
      var e := Run(EMPTY, init, quiet);
      OrderlyAccepted(e.book, q.cmd);
      StepInv(e, q, quiet);
      StepIds(e, q, quiet);
      forall id | HasId(Step(e, q, quiet).book.All(), id) ensures Entered(qs, id) {
        if Entered(init, id) {
          var i :| 0 <= i < |init| && init[i].cmd.Add? && init[i].cmd.id == id;
          assert qs[i] == init[i];
        } else {
          assert qs[|qs| - 1] == q;
        }
      }
    }
  }

  lemma EmptyInv()
    ensures Inv(EMPTY.book)
  {
    assert EMPTY.book.All() == [];
  }
}
