/**
 Replaying the log rebuilds the book: though an ADD is logged after its own match and after the
 cancellations of that match, the cancellations commute ahead of it. What replay loses is the order a
 cancel-and-replace modify leaves resting, since its own CANCEL is logged behind the MODIFY.
 */
module Recoveries {
  import opened CoreTypes
  import opened PriceTime
  import opened Sweeps
  import opened EngineSpec
  import opened Runs
  import opened BookInvariants

  // ----- cancelling as filtering

  function Drop(s: seq<OrderRec>, ids: set<nat>): seq<OrderRec> {
    if s == [] then [] else if s[0].id in ids then Drop(s[1..], ids) else [s[0]] + Drop(s[1..], ids)
  }

  function DropBoth(b: Book, ids: set<nat>): Book {
    Book(Drop(b.bids, ids), Drop(b.asks, ids))
  }

  lemma {:induction false} DropOne(s: seq<OrderRec>, ids: set<nat>, id: nat)
    ensures Drop(s, ids + {id}) == RemoveId(Drop(s, ids), id)
  {
    if s != [] {
      DropOne(s[1..], ids, id);
      assert ([s[0]] + Drop(s[1..], ids))[1..] == Drop(s[1..], ids);
    }
  }

  lemma {:induction false} DropAbsent(s: seq<OrderRec>, ids: set<nat>)
    requires forall i :: 0 <= i < |s| ==> s[i].id !in ids
    ensures Drop(s, ids) == s
  {
    if s != [] {
      DropAbsent(s[1..], ids);
    }
  }

  lemma DropMore(b: Book, ids: set<nat>, id: nat)
    ensures DropBoth(b, ids + {id}) ==
      Book(RemoveId(DropBoth(b, ids).bids, id), RemoveId(DropBoth(b, ids).asks, id))
  {
    DropOne(b.bids, ids, id);
    DropOne(b.asks, ids, id);
  }

  lemma DropNone(b: Book)
    ensures DropBoth(b, {}) == b
  {
    DropAbsent(b.bids, {});
    DropAbsent(b.asks, {});
  }

  /** Cancelling an id takes it off both sides, wherever it rests, if it rests at all. */
  lemma CancelDrops(e: Engine, id: nat, ts: nat, quiet: bool)
    requires Inv(e.book)
    ensures OnCancel(e, id, ts, quiet).book == Book(RemoveId(e.book.bids, id), RemoveId(e.book.asks, id))
    ensures Inv(OnCancel(e, id, ts, quiet).book)
  {
    var b := e.book;
    FindNone(b.All(), id);
    if Lookup(b, id).None? {
      RemoveMissing(b, Buy, id);
      RemoveMissing(b, Sell, id);
    } else {
      var r := Lookup(b, id).value;
      Found(b, id);
      RemoveKeepsInv(b, r);
      var i :| 0 <= i < |b.Of(r.side)| && b.Of(r.side)[i] == r;
      assert HasId(b.Of(r.side), id);
      var other := b.Of(r.side.Opposite());
      forall i | 0 <= i < |other| ensures other[i].id != id {
        assert other[i].id == id ==> HasId(other, id);
      }
      RemoveAbsent(other, id);
    }
  }

  lemma RemoveMissing(b: Book, side: Side, id: nat)
    requires !HasId(b.All(), id)
    ensures RemoveId(b.Of(side), id) == b.Of(side)
  {
    HasIdEither(b, id);
    var s := b.Of(side);
    forall i | 0 <= i < |s| ensures s[i].id != id {
      assert s[i].id == id ==> HasId(s, id);
    }
    RemoveAbsent(s, id);
  }

  // ----- cancellations on contact commute ahead of the match

  ghost function Selves(acts: seq<Act>): set<nat> {
    set i | 0 <= i < |acts| && acts[i].SelfCancel? :: acts[i].resting.id
  }

  lemma SelvesCons(a: Act, acts: seq<Act>)
    ensures Selves([a] + acts) == (if a.SelfCancel? then {a.resting.id} else {}) + Selves(acts)
  {
    var all := [a] + acts;
    forall id | id in (if a.SelfCancel? then {a.resting.id} else {}) + Selves(acts) ensures id in Selves(all) {
      if a.SelfCancel? && id == a.resting.id {
        assert all[0] == a;
      } else {
        var i :| 0 <= i < |acts| && acts[i].SelfCancel? && acts[i].resting.id == id;
        assert all[i + 1] == acts[i];
      }
    }
  }

  /** Only the user's own orders are cancelled on contact, and they are gone from what is left. */
  lemma {:induction false} SelvesOwn(s: seq<OrderRec>, inc: OrderRec, i: nat)
    requires AllSound(s) && UniqueIds(s) && i < |s| && s[i].id in Selves(Sweep(s, inc).acts)
    ensures s[i].user == inc.user && !HasId(Sweep(s, inc).rest, s[i].id)
    decreases if inc.rem > 0 then inc.rem else 0, |s|
  {
    Progress(s, inc);
    var t, inc', a := RestAfter(s, inc), IncAfter(s, inc), ActOf(s, inc);
    SelvesCons(a, Sweep(t, inc').acts);
    SameIds(s, inc);
    var d := |s| - |t|;
    if i >= d && s[i].id in Selves(Sweep(t, inc').acts) {
      SelvesOwn(t, inc', i - d);
    } else if s[i].id in Selves(Sweep(t, inc').acts) {
      SelvesAmong(t, inc', s[i].id);
      assert false;
    } else {
      assert i == 0;
      if HasId(Sweep(t, inc').rest, s[0].id) {
        SweepIds(t, inc', s[0].id);
        assert false;
      }
    }
  }

  lemma SameIds(s: seq<OrderRec>, inc: OrderRec)
    requires AllSound(s) && !Stops(s, inc)
    ensures var t := RestAfter(s, inc); var d := |s| - |t|;
      && 0 <= d <= 1 && (forall j :: 0 <= j < |t| ==> t[j].id == s[j + d].id && t[j].user == s[j + d].user)
      && (s[0].user == inc.user ==> d == 1)
      && (UniqueIds(s) ==> UniqueIds(t))
  {
  }

  lemma {:induction false} SelvesAmong(s: seq<OrderRec>, inc: OrderRec, id: nat)
    requires AllSound(s) && id in Selves(Sweep(s, inc).acts)
    ensures HasId(s, id)
    decreases if inc.rem > 0 then inc.rem else 0, |s|
  {
    Progress(s, inc);
    var t, inc' := RestAfter(s, inc), IncAfter(s, inc);
    SelvesCons(ActOf(s, inc), Sweep(t, inc').acts);
    SameIds(s, inc);
    if id in Selves(Sweep(t, inc').acts) {
      SelvesAmong(t, inc', id);
      var j :| 0 <= j < |t| && t[j].id == id;
      assert s[j + |s| - |t|].id == id;
    } else {
      assert s[0].id == id;
    }
  }

  lemma {:induction false} DropShape(s: seq<OrderRec>, ids: set<nat>)
    ensures |Drop(s, ids)| <= |s|
    ensures forall r :: r in Drop(s, ids) ==> r in s && r.id !in ids
    ensures AllSound(s) ==> AllSound(Drop(s, ids))
  {
    if s != [] {
      DropShape(s[1..], ids);
      var t := Drop(s, ids);
      if AllSound(s) {
        forall i | 0 <= i < |t| ensures Sound(t[i]) {
          assert t[i] in t;
          var j :| 0 <= j < |s| && s[j] == t[i];
        }
      }
    }
  }

  /** A turn against a stranger is the same with some of the later orders missing. */
  lemma DropTurn(s: seq<OrderRec>, inc: OrderRec, ids: set<nat>)
    requires AllSound(s) && !Stops(s, inc) && s[0].id !in ids && s[0].user != inc.user
    ensures Drop(s, ids) != [] && !Stops(Drop(s, ids), inc)
    ensures RestAfter(Drop(s, ids), inc) == Drop(RestAfter(s, inc), ids)
    ensures IncAfter(Drop(s, ids), inc) == IncAfter(s, inc)
  {
    assert Drop(s, ids)[0] == s[0] && Drop(s, ids)[1..] == Drop(s[1..], ids);
    var r := Reduced(s[0], Min(inc.rem, s[0].rem));
    assert ([r] + s[1..])[1..] == s[1..];
  }

  ghost predicate ExactlySelves(s: seq<OrderRec>, inc: OrderRec, ids: set<nat>)
    requires AllSound(s)
  {
    forall i :: 0 <= i < |s| ==> (s[i].id in ids <==> s[i].id in Selves(Sweep(s, inc).acts))
  }

  lemma ExactlyNext(s: seq<OrderRec>, inc: OrderRec, ids: set<nat>)
    requires AllSound(s) && UniqueIds(s) && !Stops(s, inc) && ExactlySelves(s, inc, ids)
    ensures AllSound(RestAfter(s, inc)) && UniqueIds(RestAfter(s, inc))
    ensures ExactlySelves(RestAfter(s, inc), IncAfter(s, inc), ids)
    ensures s[0].user == inc.user <==> s[0].id in ids
  {
    Progress(s, inc);
    SameIds(s, inc);
    var t, inc' := RestAfter(s, inc), IncAfter(s, inc);
    SelvesCons(ActOf(s, inc), Sweep(t, inc').acts);
    if s[0].id in ids {
      SelvesOwn(s, inc, 0);
    }
    hide Sweep, RestAfter, IncAfter;
    forall i | 0 <= i < |t| ensures t[i].id in ids <==> t[i].id in Selves(Sweep(t, inc').acts) {
      assert t[i].id == s[i + |s| - |t|].id;
    }
  }

  /** Had the cancellations of a match come first, the match would have ended the same. */
  lemma {:induction false} CancelsCommute(s: seq<OrderRec>, inc: OrderRec, ids: set<nat>)
    requires AllSound(s) && UniqueIds(s) && ExactlySelves(s, inc, ids)
    ensures AllSound(Drop(s, ids))
    ensures Sweep(Drop(s, ids), inc).rest == Sweep(s, inc).rest
    ensures Sweep(Drop(s, ids), inc).inc == Sweep(s, inc).inc
    decreases if inc.rem > 0 then inc.rem else 0, |s|
  {
    DropShape(s, ids);
    if Stops(s, inc) {
      assert Sweep(s, inc).acts == [];
      DropAbsent(s, ids);
    } else {
      hide ActOf, ExactlySelves;
      ExactlyNext(s, inc, ids);
      Progress(s, inc);
      CancelsCommute(RestAfter(s, inc), IncAfter(s, inc), ids);
      if s[0].user != inc.user {
        DropTurn(s, inc, ids);
        Progress(Drop(s, ids), inc);
      }
    }
  }

  // ----- what one live request appends to the log, and what replay makes of it

  ghost predicate Matches(rs: seq<Request>, log: seq<Cmd>) {
    |rs| == |log| && forall i :: 0 <= i < |rs| ==> rs[i].cmd == log[i]
  }

  lemma MatchesSplit(rs: seq<Request>, log: seq<Cmd>, more: seq<Cmd>)
    requires Matches(rs, log + more)
    ensures Matches(rs[..|log|], log) && Matches(rs[|log|..], more) && rs == rs[..|log|] + rs[|log|..]
  {
    forall i | 0 <= i < |log| ensures rs[..|log|][i].cmd == log[i] {
      assert rs[i].cmd == (log + more)[i];
    }
    forall i | 0 <= i < |more| ensures rs[|log|..][i].cmd == more[i] {
      assert rs[i + |log|].cmd == (log + more)[i + |log|];
    }
  }

  /** The modify takes the order out and enters it anew. */
  predicate Replaces(b: Book, c: Cmd) {
    c.Modify? && Lookup(b, c.id).Some? && !ReducesInPlace(Lookup(b, c.id).value, c.price, c.qty)
  }

  function Gone(b: Book, id: nat): Book {
    Book(RemoveId(b.bids, id), RemoveId(b.asks, id))
  }

  /** What the run's log gains by a live request. */
  function Logged(b: Book, q: Request): seq<Cmd>
    requires Accepts(b, q.cmd)
  {
    match q.cmd
    case Add(_, _, _, _, _, _, _) =>
      if Full(b) then [] else ActsLog(Match(b, q.Entering()).acts) + [AddOf(q.Entering())]
    case Cancel(id) => [q.cmd]
    case Modify(id, price, qty) =>
      if !Replaces(b, q.cmd) then [q.cmd]
      else
        var r := Lookup(b, id).value;
        RemoveKeepsSound(b.bids, r.id);
        RemoveKeepsSound(b.asks, r.id);
        var gone := Without(b, r);
        [q.cmd, Cmd.Cancel(id)] + ActsLog(Match(gone, Replacement(r, price, qty, q.now)).acts)
  }

  lemma StepLogs(e: Engine, q: Request)
    requires Inv(e.book) && Accepts(e.book, q.cmd)
    ensures Step(e, q, false).log == e.log + Logged(e.book, q)
  {
    hide NewBook, NewEvents, ReducedBook, ReducedEvents, CancelEvents, PlacedEvents, Match, ActsLog, Lookup, Inv, Full;
    if Replaces(e.book, q.cmd) {
      Found(e.book, q.cmd.id);
      ReplaceLogs(e, q);
    }
  }

  lemma ReplaceLogs(e: Engine, q: Request)
    requires Inv(e.book) && Accepts(e.book, q.cmd) && Replaces(e.book, q.cmd)
    ensures Step(e, q, false).log == e.log + Logged(e.book, q)
  {
    hide NewBook, NewEvents, CancelEvents, PlacedEvents, Match, ActsLog, SideInv;
    Found(e.book, q.cmd.id);
    var r := Lookup(e.book, q.cmd.id).value;
    RemoveKeepsInv(e.book, r);
    RemoveKeepsSound(e.book.bids, r.id);
    RemoveKeepsSound(e.book.asks, r.id);
  }

  lemma {:induction false} RunAppend(e: Engine, qs: seq<Request>, rs: seq<Request>, quiet: bool)
    requires Ready(e, qs, quiet) && Ready(Run(e, qs, quiet), rs, quiet)
    ensures Ready(e, qs + rs, quiet) && Run(e, qs + rs, quiet) == Run(Run(e, qs, quiet), rs, quiet)
  {
    if rs == [] {
      assert qs + rs == qs;
    } else {
      var init, q := rs[..|rs| - 1], rs[|rs| - 1];
      RunAppend(e, qs, init, quiet);
      assert (qs + rs)[..|qs + rs| - 1] == qs + init && (qs + rs)[|qs + rs| - 1] == q;
    }
  }

  /** One more cancel takes one more id out. */
  lemma CancelMore(d: Engine, rs: seq<Request>, q: Request, ids: set<nat>)
    requires Ready(d, rs, true) && Inv(Run(d, rs, true).book) && Run(d, rs, true).book == DropBoth(d.book, ids)
    requires q.cmd.Cancel?
    ensures Ready(d, rs + [q], true) && Inv(Run(d, rs + [q], true).book)
    ensures Run(d, rs + [q], true).book == DropBoth(d.book, ids + {q.cmd.id})
  {
    hide Inv, Drop, OnCancel, Ready, Run;
    CancelDrops(Run(d, rs, true), q.cmd.id, q.now, true);
    DropMore(d.book, ids, q.cmd.id);
    RunStep(d, rs, q, true);
  }

  lemma {:induction false} CancelsReplay(d: Engine, acts: seq<Act>, rs: seq<Request>)
    requires Inv(d.book) && Matches(rs, ActsLog(acts))
    ensures Ready(d, rs, true) && Inv(Run(d, rs, true).book)
    ensures Run(d, rs, true).book == DropBoth(d.book, Selves(acts))
  {
    hide Inv, DropBoth, Step, Selves;
    if acts == [] {
      assert Selves(acts) == {} by {
        NoSelves();
      }
      DropNone(d.book);
    } else {
      var n := |acts| - 1;
      var init, a := acts[..n], acts[n];
      var more := if a.SelfCancel? then [Cmd.Cancel(a.resting.id)] else [];
      SelvesSnoc(acts);
      assert ActsLog(acts) == ActsLog(init) + more;
      MatchesSplit(rs, ActsLog(init), more);
      var rs0 := rs[..|ActsLog(init)|];
      CancelsReplay(d, init, rs0);
      if a.SelfCancel? {
        assert rs == rs0 + [rs[|rs| - 1]];
        CancelMore(d, rs0, rs[|rs| - 1], Selves(init));
      } else {
        assert rs == rs0 && Selves(init) + {} == Selves(init);
      }
    }
  }

  lemma NoSelves()
    ensures Selves([]) == {}
  {
  }

  lemma SelvesSnoc(acts: seq<Act>)
    requires acts != []
    ensures var n := |acts| - 1;
      Selves(acts) == Selves(acts[..n]) + if acts[n].SelfCancel? then {acts[n].resting.id} else {}
  {
    var n := |acts| - 1;
    var rhs := Selves(acts[..n]) + if acts[n].SelfCancel? then {acts[n].resting.id} else {};
    forall id | id in Selves(acts) ensures id in rhs {
      var i :| 0 <= i < |acts| && acts[i].SelfCancel? && acts[i].resting.id == id;
      if i < n {
        assert acts[..n][i] == acts[i];
      }
    }
  }

  /** The match's own cancellations touch nothing of the incoming order's side. */
  lemma SelvesOpposite(b: Book, r: OrderRec)
    requires Inv(b)
    ensures ExactlySelves(b.Of(r.side.Opposite()), r, Selves(Match(b, r).acts))
    ensures Drop(b.Of(r.side), Selves(Match(b, r).acts)) == b.Of(r.side)
  {
    var own, other, ids := b.Of(r.side), b.Of(r.side.Opposite()), Selves(Match(b, r).acts);
    InvOf(b, r.side.Opposite());
    forall i | 0 <= i < |own| ensures own[i].id !in ids {
      assert HasId(own, own[i].id);
      if own[i].id in ids {
        SelvesAmong(other, r, own[i].id);
        assert false;
      }
    }
    DropAbsent(own, ids);
  }

  /** With the cancellations out of the way first, a new order leaves the same book. */
  lemma NewReplays(b: Book, r: OrderRec)
    requires Inv(b)
    ensures var d := DropBoth(b, Selves(Match(b, r).acts));
      AllSound(d.Of(r.side.Opposite())) && NewBook(d, r) == NewBook(b, r)
      && (forall id :: HasId(d.All(), id) ==> HasId(b.All(), id)) && (!Full(b) ==> !Full(d))
  {
    var ids := Selves(Match(b, r).acts);
    InvOf(b, r.side.Opposite());
    SelvesOpposite(b, r);
    CancelsCommute(b.Of(r.side.Opposite()), r, ids);
    var d := DropBoth(b, ids);
    DropShape(b.bids, ids);
    DropShape(b.asks, ids);
    forall id | HasId(d.All(), id) ensures HasId(b.All(), id) {
      var i :| 0 <= i < |d.All()| && d.All()[i].id == id;
      assert d.All()[i] in d.bids || d.All()[i] in d.asks;
      assert d.All()[i] in b.All();
      var j :| 0 <= j < |b.All()| && b.All()[j] == d.All()[i];
    }
  }

  /** Neither the sweep nor the book it leaves on the other side knows the incoming order's timestamp. */
  lemma {:induction false} SweepTs(s: seq<OrderRec>, inc: OrderRec, ts: nat)
    requires AllSound(s)
    ensures Sweep(s, inc.(ts := ts)).rest == Sweep(s, inc).rest
    decreases if inc.rem > 0 then inc.rem else 0, |s|
  {
    if !Stops(s, inc) {
      Progress(s, inc);
      SweepTs(RestAfter(s, inc), IncAfter(s, inc), ts);
      assert IncAfter(s, inc.(ts := ts)) == IncAfter(s, inc).(ts := ts);
    }
  }

  lemma {:induction false} PlaceRemoved(s: seq<OrderRec>, r: OrderRec)
    requires !HasId(s, r.id)
    ensures RemoveId(Place(s, r), r.id) == s
  {
    if s == [] || !Ahead(r.side, s[0].price, r.price) {
      RemoveNone(s, r.id);
      assert ([r] + s)[1..] == s;
    } else {
      ConsIds(s[0], s[1..], r.id);
      assert [s[0]] + s[1..] == s;
      PlaceRemoved(s[1..], r);
      assert ([s[0]] + Place(s[1..], r))[1..] == Place(s[1..], r);
    }
  }

  lemma RemoveNone(s: seq<OrderRec>, id: nat)
    requires !HasId(s, id)
    ensures RemoveId(s, id) == s
  {
    forall i | 0 <= i < |s| ensures s[i].id != id {
      assert s[i].id == id ==> HasId(s, id);
    }
    RemoveAbsent(s, id);
  }

  /** A new order taken out again leaves what its match left, whenever it was entered; the match's own
      cancellations have nothing more to take. */
  lemma NewThenGone(b: Book, r: OrderRec, ts: nat)
    requires Inv(b) && !HasId(b.All(), r.id) && r.rem == r.qty
    ensures Gone(NewBook(b, r.(ts := ts)), r.id) == Gone(NewBook(b, r), r.id)
    ensures DropBoth(Gone(NewBook(b, r), r.id), Selves(Match(b, r).acts)) == Gone(NewBook(b, r), r.id)
  {
    hide Inv;
    var own, other := b.Of(r.side), b.Of(r.side.Opposite());
    InvOf(b, r.side.Opposite());
    var m := Match(b, r);
    FreshIn(b, r.side, r.id);
    SweepTs(other, r, ts);
    SweepTail(r.side.Opposite(), other, r);
    RemoveNone(m.rest, r.id);
    RemoveNone(own, r.id);
    GoneNew(b, r);
    GoneNew(b, r.(ts := ts));
    SelvesOpposite(b, r);
    forall i | 0 <= i < |m.rest| ensures m.rest[i].id !in Selves(m.acts) {
      assert HasId(m.rest, m.rest[i].id);
      var j :| 0 <= j < |other| && other[j].id == m.rest[i].id;
      if other[j].id in Selves(m.acts) {
        SelvesOwn(other, r, j);
        assert false;
      }
    }
    DropAbsent(m.rest, Selves(m.acts));
  }

  lemma GoneNew(b: Book, r: OrderRec)
    requires AllSound(b.Of(r.side.Opposite()))
    requires !HasId(b.Of(r.side), r.id) && !HasId(Match(b, r).rest, r.id)
    ensures Gone(NewBook(b, r), r.id) == b.With(r.side.Opposite(), Match(b, r).rest)
  {
    SweepExit(b.Of(r.side.Opposite()), r);
    PlaceRemoved(b.Of(r.side), Closing(Match(b, r).inc));
    RemoveNone(b.Of(r.side), r.id);
    RemoveNone(Match(b, r).rest, r.id);
  }

  /** What replaying the records of one live request makes of the book it found. */
  function Replayed(e: Engine, q: Request): Book
    requires Accepts(e.book, q.cmd)
  {
    var live := Step(e, q, false).book;
    if Replaces(e.book, q.cmd) then Gone(live, q.cmd.id) else live
  }

  /** The log keeps times as they were; only a clock at zero leaves none. */
  predicate Timed(q: Request) {
    q.cmd.Add? ==> q.cmd.ts != 0 || q.now != 0
  }

  lemma AddReplays(e: Engine, d: Engine, q: Request, rs: seq<Request>)
    requires Inv(e.book) && d.book == e.book && q.cmd.Add? && Accepts(e.book, q.cmd) && Timed(q)
    requires Matches(rs, Logged(e.book, q))
    ensures Ready(d, rs, true) && Run(d, rs, true).book == Step(e, q, false).book
  {
    if !Full(e.book) {
      hide NewBook, Inv, Full, Match, Drop;
      var b, r := e.book, q.Entering();
      var acts := Match(b, r).acts;
      MatchesSplit(rs, ActsLog(acts), [AddOf(r)]);
      var rs0, last := rs[..|ActsLog(acts)|], rs[|rs| - 1];
      assert rs == rs0 + [last];
      CancelsReplay(d, acts, rs0);
      NewReplays(b, r);
      assert last.Entering() == r;
      var d1 := Run(d, rs0, true);
      assert d1.book == DropBoth(b, Selves(acts));
      RunStep(d, rs0, last, true);
    }
  }

  /** Replay repeats the replacement and then, by the record behind it, takes it out again. */
  lemma ReplaceReplays(e: Engine, d: Engine, q: Request, rs: seq<Request>)
    requires Inv(e.book) && d.book == e.book && Replaces(e.book, q.cmd) && Orderly(q.cmd) && Accepts(e.book, q.cmd)
    requires Matches(rs, Logged(e.book, q))
    ensures Ready(d, rs, true) && Run(d, rs, true).book == Gone(Step(e, q, false).book, q.cmd.id)
  {
    hide NewBook, Inv, Full, Match, Drop;
    var b, r := e.book, Lookup(e.book, q.cmd.id).value;
    Found(b, q.cmd.id);
    RemoveKeepsInv(b, r);
    var gone := Without(b, r);
    InvOf(gone, r.side.Opposite());
    var p, p' := Replacement(r, q.cmd.price, q.cmd.qty, q.now), Replacement(r, q.cmd.price, q.cmd.qty, rs[0].now);
    assert p' == p.(ts := rs[0].now);
    var acts := Match(gone, p).acts;
    MatchesSplit(rs, [q.cmd, Cmd.Cancel(r.id)], ActsLog(acts));
    var rs1 := rs[2..];
    assert rs == [rs[0], rs[1]] + rs1;
    ReplacedTwice(d, q.cmd, rs[0], rs[1]);
    NewThenGone(gone, p, rs[0].now);
    var d2 := Run(d, [rs[0], rs[1]], true);
    assert d2.book == Gone(NewBook(gone, p), r.id);
    CancelsReplay(d2, acts, rs1);
    RunAppend(d, [rs[0], rs[1]], rs1, true);
  }

  lemma ReplacedTwice(d: Engine, c: Cmd, q0: Request, q1: Request)
    requires Inv(d.book) && Replaces(d.book, c) && Orderly(c) && q0.cmd == c && q1.cmd == Cmd.Cancel(c.id)
    ensures Ready(d, [q0, q1], true) && Inv(Run(d, [q0, q1], true).book)
    ensures var r := Lookup(d.book, c.id).value; var gone := Without(d.book, r);
      && AllSound(gone.Of(r.side.Opposite()))
      && Run(d, [q0, q1], true).book == Gone(NewBook(gone, Replacement(r, c.price, c.qty, q0.now)), r.id)
  {
    hide NewBook, Inv, Full, Match, Drop;
    Found(d.book, c.id);
    var r := Lookup(d.book, c.id).value;
    RemoveKeepsInv(d.book, r);
    InvOf(Without(d.book, r), r.side.Opposite());
    OrderlyAccepted(d.book, c);
    StepInv(d, q0, true);
    CancelDrops(Step(d, q0, true), r.id, q1.now, true);
    RunTwo(d, q0, q1, true);
  }

  /** One live request, replayed from an engine with the same book. */
  lemma StepReplays(e: Engine, d: Engine, q: Request, rs: seq<Request>)
    requires Inv(e.book) && d.book == e.book && Orderly(q.cmd) && Accepts(e.book, q.cmd) && Timed(q)
    requires Matches(rs, Logged(e.book, q))
    ensures Ready(d, rs, true) && Run(d, rs, true).book == Replayed(e, q)
  {
    hide Inv;
    if q.cmd.Add? {
      AddReplays(e, d, q, rs);
    } else if Replaces(e.book, q.cmd) {
      ReplaceReplays(e, d, q, rs);
    } else {
      assert rs[..0] == [] && rs == [rs[0]];
      assert Ready(d, [], true) && Run(d, [], true) == d;
      RunStep(d, [], rs[0], true);
      SameReplay(e, d, q, rs[0]);
    }
  }

  /** Apart from a replacement, what a cancel or a modify does to the book does not depend on its time. */
  lemma SameReplay(e: Engine, d: Engine, q: Request, q': Request)
    requires Inv(e.book) && d.book == e.book && q'.cmd == q.cmd && !q.cmd.Add? && !Replaces(e.book, q.cmd)
    requires Accepts(e.book, q.cmd)
    ensures Step(d, q', true).book == Step(e, q, false).book
  {
  }

  // ----- exactly which runs can be recovered

  /** Replaying the log, at whatever times, ends with this book. */
  ghost predicate Rebuilds(log: seq<Cmd>, b: Book) {
    forall rs :: Matches(rs, log) ==> Ready(EMPTY, rs, true) && Run(EMPTY, rs, true).book == b
  }

  /** A replacement asks for more than strangers offer within its reach, so part of it will rest. */
  predicate LeavesReplacement(b: Book, c: Cmd) {
    Replaces(b, c) &&
    var r := Lookup(b, c.id).value;
    var s := Without(b, r).Of(r.side.Opposite());
    var p := Replacement(r, c.price, c.qty, 0);
    Reach(s, p) <= |s| && Offered(s, r.user, Reach(s, p)) < c.qty
  }

  lemma ReplacementRests(e: Engine, q: Request)
    requires Inv(e.book) && Replaces(e.book, q.cmd) && Orderly(q.cmd) && Accepts(e.book, q.cmd)
    ensures HasId(Step(e, q, false).book.All(), q.cmd.id) <==> LeavesReplacement(e.book, q.cmd)
  {
    hide Inv, Sweep, NewBook;
    var b, r := e.book, Lookup(e.book, q.cmd.id).value;
    Found(b, q.cmd.id);
    RemoveKeepsInv(b, r);
    var gone, p := Without(b, r), Replacement(r, q.cmd.price, q.cmd.qty, q.now);
    var s := gone.Of(r.side.Opposite());
    InvOf(gone, r.side.Opposite());
    SweepTakes(s, p);
    SameReach(s, p, Replacement(r, q.cmd.price, q.cmd.qty, 0));
    NewRests(gone, p);
  }

  lemma NewRests(b: Book, r: OrderRec)
    requires Inv(b) && !HasId(b.All(), r.id) && r.kind.Limit? && r.rem == r.qty >= 1
    ensures AllSound(b.Of(r.side.Opposite()))
    ensures HasId(NewBook(b, r).All(), r.id) <==> Match(b, r).inc.rem > 0
  {
    var other := b.Of(r.side.Opposite());
    InvOf(b, r.side.Opposite());
    SweepExit(other, r);
    SweepTail(r.side.Opposite(), other, r);
    FreshIn(b, r.side, r.id);
    FreshIn(NewBook(b, r), r.side, r.id);
    PlaceIds(b.Of(r.side), Closing(Match(b, r).inc), r.id);
  }

  function AsRequests(log: seq<Cmd>): seq<Request> {
    seq(|log|, i requires 0 <= i < |log| => Request(log[i], 0))
  }

  lemma StepRebuilds(e: Engine, q: Request)
    requires Inv(e.book) && Rebuilds(e.log, e.book) && Orderly(q.cmd) && Accepts(e.book, q.cmd) && Timed(q)
    ensures Rebuilds(Step(e, q, false).log, Replayed(e, q))
    ensures Rebuilds(Step(e, q, false).log, Step(e, q, false).book) <==> !LeavesReplacement(e.book, q.cmd)
  {
    hide Inv, Step, Orderly, Accepts, Replaces, LeavesReplacement, Logged;
    var log, live := Step(e, q, false).log, Step(e, q, false).book;
    StepLogs(e, q);
    forall rs | Matches(rs, log) ensures Ready(EMPTY, rs, true) && Run(EMPTY, rs, true).book == Replayed(e, q) {
      MatchesSplit(rs, e.log, Logged(e.book, q));
      var rs0, rs1 := rs[..|e.log|], rs[|e.log|..];
      StepReplays(e, Run(EMPTY, rs0, true), q, rs1);
      RunAppend(EMPTY, rs0, rs1, true);
    }
    assert Matches(AsRequests(log), log);
    ReplayedSame(e, q);
  }

  lemma ReplayedSame(e: Engine, q: Request)
    requires Inv(e.book) && Orderly(q.cmd) && Accepts(e.book, q.cmd)
    ensures Replayed(e, q) == Step(e, q, false).book <==> !LeavesReplacement(e.book, q.cmd)
  {
    hide Inv, Step, Orderly, Accepts;
    if Replaces(e.book, q.cmd) {
      var live, id := Step(e, q, false).book, q.cmd.id;
      ReplacementRests(e, q);
      RemoveIds(live.bids, id, id);
      RemoveIds(live.asks, id, id);
      HasIdEither(live, id);
      if !HasId(live.All(), id) {
        RemoveNone(live.bids, id);
        RemoveNone(live.asks, id);
      }
    }
  }

  /** No modify of the run leaves a replacement resting. */
  ghost predicate Replayable(qs: seq<Request>) {
    qs == [] ||
    (Replayable(qs[..|qs| - 1]) && Ready(EMPTY, qs[..|qs| - 1], false) &&
     !LeavesReplacement(Run(EMPTY, qs[..|qs| - 1], false).book, qs[|qs| - 1].cmd))
  }

  /** A crash after any request of the run would lose nothing. */
  ghost predicate AlwaysRebuilds(qs: seq<Request>)
    requires Ready(EMPTY, qs, false)
  {
    Rebuilds(Run(EMPTY, qs, false).log, Run(EMPTY, qs, false).book) && (qs == [] || AlwaysRebuilds(qs[..|qs| - 1]))
  }

  lemma {:induction false} RecoveryExact(qs: seq<Request>)
    requires Lawful(qs) && forall i :: 0 <= i < |qs| ==> Timed(qs[i])
    ensures Ready(EMPTY, qs, false)
    ensures AlwaysRebuilds(qs) <==> Replayable(qs)
  {
    hide Inv, Step, Accepts, LeavesReplacement;
    RunInv(qs, false);
    if qs == [] {
      forall rs | Matches(rs, EMPTY.log) ensures Ready(EMPTY, rs, true) && Run(EMPTY, rs, true).book == EMPTY.book {
        assert rs == [];
      }
    } else {
      var init, q := qs[..|qs| - 1], qs[|qs| - 1];
      assert forall i :: 0 <= i < |init| ==> init[i] == qs[i];
      RunInv(init, false);
      RecoveryExact(init);
      if AlwaysRebuilds(init) {
        StepRebuilds(Run(EMPTY, init, false), q);
      }
    }
  }
}
