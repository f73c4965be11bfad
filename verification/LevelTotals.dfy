/**
 How far a level's kept total runs ahead of its orders: what was cut in place there since the level was
 made, and nothing else. The accounting is over requests alone; the ghost views only carry it along.
 */
module LevelTotals {
  import opened CoreTypes
  import opened BookSides
  import opened EngineSpec
  import opened Runs

  // ----- the accounting

  /** The side on which, and by how much, a modify cuts an order in place. */
  function CutOf(b: Book, c: Cmd): Option<(Side, int)> {
    if !c.Modify? then None
    else
      match Lookup(b, c.id)
      case None => None
      case Some(r) =>
        if ReducesInPlace(r, c.price, c.qty) && r.rem >= r.qty - c.qty then Some((r.side, r.qty - c.qty)) else None
  }

  /** What a price has been cut by is forgotten once nothing rests there. */
  predicate HasPrice(s: seq<OrderRec>, p: int) {
    exists i :: 0 <= i < |s| && s[i].price == p
  }

  function Remembered(b: Book, side: Side, p: int, n: int): int {
    if HasPrice(b.Of(side), p) then n else 0
  }

  /** The book between the two halves of a cancel-and-replace; for every other request, the book before. */
  function Between(b: Book, c: Cmd): Book {
    if !c.Modify? then b
    else
      match Lookup(b, c.id)
      case None => b
      case Some(r) => if ReducesInPlace(r, c.price, c.qty) || r.state.Filled? then b else Without(b, r)
  }

  /** The cuts at a price after a request that led from b to b', with n before it. */
  function CutsAfter(b: Book, c: Cmd, b': Book, side: Side, p: int, n: int): int {
    var cut := CutOf(b, c);
    var kept := Remembered(Between(b, c), side, p, n);
    Remembered(b', side, p, kept + if cut.Some? && cut.value.0 == side && c.price == p then cut.value.1 else 0)
  }

  /** The cuts at a price after a run, with n(side, p) before it. */
  ghost function Cuts(e: Engine, qs: seq<Request>, quiet: bool, side: Side, p: int, n: int): int
    requires Ready(e, qs, quiet)
  {
    if qs == [] then n
    else
      var init, q := qs[..|qs| - 1], qs[|qs| - 1];
      CutsAfter(Run(e, init, quiet).book, q.cmd, Run(e, qs, quiet).book, side, p, Cuts(e, init, quiet, side, p, n))
  }

  /** No request of the run cuts an order in place. */
  ghost predicate Uncut(e: Engine, qs: seq<Request>, quiet: bool)
    requires Ready(e, qs, quiet)
  {
    qs == [] ||
    (Uncut(e, qs[..|qs| - 1], quiet) && CutOf(Run(e, qs[..|qs| - 1], quiet).book, qs[|qs| - 1].cmd).None?)
  }

  /** Without reductions in place there is nothing to be ahead by. */
  lemma {:induction false} UncutLevel(e: Engine, qs: seq<Request>, quiet: bool, side: Side, p: int)
    requires Ready(e, qs, quiet) && Uncut(e, qs, quiet)
    ensures Cuts(e, qs, quiet, side, p, 0) == 0
  {
    hide Run;
    if qs != [] {
      UncutLevel(e, qs[..|qs| - 1], quiet, side, p);
    }
  }

  // ----- the same, seen from one side's ghost view

  ghost function Gap(v: SideView, p: int): int {
    if p in v.drift then v.drift[p] else 0
  }

  /** Every level that is there has the gap it had before, which is none if it was not there. */
  ghost predicate GapsKept(v: SideView, v': SideView) {
    forall p :: p in v'.drift ==> v'.drift[p] == Gap(v, p)
  }

  /** Every level has the gap it had, but for the level at p, which falls behind by another d. */
  ghost predicate GapsCut(v: SideView, v': SideView, p: int, d: int) {
    forall q :: q in v'.drift ==> v'.drift[q] == Gap(v, q) + if q == p then d else 0
  }

  /** Every level has the gap it had, if its price held out in between, and none otherwise. */
  ghost predicate GapsThrough(v: SideView, between: seq<OrderRec>, v': SideView) {
    forall p :: p in v'.drift ==> v'.drift[p] == if HasPrice(between, p) then Gap(v, p) else 0
  }

  /** Levels are there exactly for the prices at which orders rest. */
  ghost predicate LevelsLive(v: SideView) {
    forall p :: p in v.drift <==> HasPrice(v.recs, p)
  }

  /** At every price the gap moves as the accounting says. */
  ghost predicate GapsFollow(v: SideView, v': SideView, b: Book, c: Cmd, b': Book, side: Side) {
    forall p :: Gap(v', p) == CutsAfter(b, c, b', side, p, Gap(v, p))
  }

  /** Both sides as the book's ghost views have them. */
  datatype Views = Views(bids: SideView, asks: SideView)

  ghost predicate BothLive(v: Views, b: Book) {
    LevelsLive(v.bids) && LevelsLive(v.asks) && v.bids.recs == b.bids && v.asks.recs == b.asks
  }

  ghost predicate BothKept(v: Views, v': Views) {
    GapsKept(v.bids, v'.bids) && GapsKept(v.asks, v'.asks)
  }

  ghost predicate BothThrough(v: Views, between: Book, v': Views) {
    GapsThrough(v.bids, between.bids, v'.bids) && GapsThrough(v.asks, between.asks, v'.asks)
  }

  /** A cut of d in place on one side, at p. */
  ghost predicate OneCut(v: Views, v': Views, side: Side, p: int, d: int) {
    GapsCut(v.bids, v'.bids, p, if side.Buy? then d else 0) && GapsCut(v.asks, v'.asks, p, if side.Sell? then d else 0)
  }

  /** Both sides follow the accounting of a request. */
  ghost predicate Follows(v: Views, v': Views, b: Book, c: Cmd, b': Book) {
    GapsFollow(v.bids, v'.bids, b, c, b', Buy) && GapsFollow(v.asks, v'.asks, b, c, b', Sell)
  }

  lemma KeptThrough(v: Views, v': Views, v'': Views, b': Book)
    requires BothKept(v, v') && BothKept(v', v'') && BothLive(v', b')
    ensures BothThrough(v, b', v'')
  {
  }

  lemma KeptFollows(v: Views, v': Views, b: Book, c: Cmd, b': Book)
    requires BothKept(v, v') && BothLive(v, b) && BothLive(v', b')
    requires CutOf(b, c).None? && Between(b, c) == b
    ensures Follows(v, v', b, c, b')
  {
  }

  lemma CutFollows(v: Views, v': Views, b: Book, c: Cmd, b': Book)
    requires BothLive(v, b) && BothLive(v', b')
    requires CutOf(b, c).Some? && Between(b, c) == b
    requires OneCut(v, v', CutOf(b, c).value.0, c.price, CutOf(b, c).value.1)
    ensures Follows(v, v', b, c, b')
  {
  }

  lemma ThroughFollows(v: Views, v': Views, b: Book, c: Cmd, b': Book)
    requires BothThrough(v, Between(b, c), v')
    requires BothLive(v, b) && BothLive(v', b') && CutOf(b, c).None?
    ensures Follows(v, v', b, c, b')
  {
  }

  /** A request that leaves the book alone. */
  lemma StillFollows(v: Views, b: Book, c: Cmd)
    requires BothLive(v, b) && CutOf(b, c).None? && Between(b, c) == b
    ensures Follows(v, v, b, c, b)
  {
  }

  lemma StillUnknown(v: Views, b: Book, c: Cmd)
    requires BothLive(v, b) && c.Modify?
    ensures Lookup(b, c.id).None? ==> Follows(v, v, b, c, b)
  {
  }

  /** After a run from a view w of the side, every gap is what the accounting says of the run. */
  ghost predicate Counted(w: SideView, v: SideView, e: Engine, qs: seq<Request>, quiet: bool, side: Side)
    requires Ready(e, qs, quiet)
  {
    forall p :: Gap(v, p) == Cuts(e, qs, quiet, side, p, Gap(w, p))
  }

  /** The same, counted from an empty side. */
  ghost predicate CountedFresh(v: SideView, e: Engine, qs: seq<Request>, quiet: bool, side: Side)
    requires Ready(e, qs, quiet)
  {
    forall p :: Gap(v, p) == Cuts(e, qs, quiet, side, p, 0)
  }

  lemma FreshCount(w: SideView, v: SideView, e: Engine, qs: seq<Request>, quiet: bool, side: Side)
    requires Ready(e, qs, quiet) && Counted(w, v, e, qs, quiet, side) && w.drift == map[]
    ensures CountedFresh(v, e, qs, quiet, side)
  {
    hide Cuts;
    assert forall p :: Gap(w, p) == 0;
  }

  lemma CountedStart(w: SideView, e: Engine, quiet: bool, side: Side)
    ensures Ready(e, [], quiet) && Counted(w, w, e, [], quiet, side)
  {
  }

  lemma CountedNext(w: SideView, v: SideView, v': SideView, e: Engine, qs: seq<Request>, q: Request, quiet: bool,
                    side: Side)
    requires Ready(e, qs, quiet) && Ready(e, qs + [q], quiet) && Counted(w, v, e, qs, quiet, side)
    requires GapsFollow(v, v', Run(e, qs, quiet).book, q.cmd, Run(e, qs + [q], quiet).book, side)
    ensures Counted(w, v', e, qs + [q], quiet, side)
  {
    hide Run, CutsAfter, Gap;
    assert (qs + [q])[..|qs|] == qs;
  }
}
