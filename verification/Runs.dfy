/** Runs of the engine: requests handled one after another, live or while the log is replayed. */
module Runs {
  import opened CoreTypes
  import opened PriceTime
  import opened Sweeps
  import opened EngineSpec

  /** A request, and what the wall clock reads while it is handled. */
  datatype Request = Request(cmd: Cmd, now: nat) {
    /** A new order without a timestamp of its own is stamped by the clock. */
    function Entering(): OrderRec
      requires cmd.Add?
    {
      Incoming(cmd.(ts := if cmd.ts != 0 then cmd.ts else now))
    }
  }

  /** What the code takes for granted: an id of its own, a price the index can hold, and resting
      orders with something left, without which matching never ends. */
  ghost predicate Accepts(b: Book, c: Cmd) {
    match c
    case Add(id, _, side, kind, price, _, _) =>
      AllSound(b.Of(side.Opposite())) && !HasId(b.All(), id) && (kind.Limit? ==> 0 <= price < U64)
    case Cancel(_) => true
    case Modify(_, price, _) => AllSound(b.bids) && AllSound(b.asks) && 0 <= price < U64
  }

  function Step(e: Engine, q: Request, quiet: bool): Engine
    requires Accepts(e.book, q.cmd)
  {
    match q.cmd
    case Add(_, _, _, _, _, _, _) => OnNew(e, q.Entering(), Mode(quiet, false))
    case Cancel(id) => OnCancel(e, id, q.now, quiet)
    case Modify(id, price, qty) => OnModify(e, id, price, qty, q.now, quiet)
  }

  /** Every request of the run finds the engine ready for it. */
  ghost predicate Ready(e: Engine, qs: seq<Request>, quiet: bool)
    decreases |qs|, 0
  {
    qs == [] || (Ready(e, qs[..|qs| - 1], quiet) && Accepts(Run(e, qs[..|qs| - 1], quiet).book, qs[|qs| - 1].cmd))
  }

  ghost function Run(e: Engine, qs: seq<Request>, quiet: bool): Engine
    requires Ready(e, qs, quiet)
    decreases |qs|, 1
  {
    if qs == [] then e else Step(Run(e, qs[..|qs| - 1], quiet), qs[|qs| - 1], quiet)
  }

  lemma RunStep(e: Engine, qs: seq<Request>, q: Request, quiet: bool)
    requires Ready(e, qs, quiet) && Accepts(Run(e, qs, quiet).book, q.cmd)
    ensures Ready(e, qs + [q], quiet)
    ensures Run(e, qs + [q], quiet) == Step(Run(e, qs, quiet), q, quiet)
  {
    assert (qs + [q])[..|qs|] == qs;
  }

  lemma RunNone(e: Engine, quiet: bool)
    ensures Ready(e, [], quiet) && Run(e, [], quiet) == e
  {
  }

  /** A run of two requests. */
  lemma RunTwo(e: Engine, q0: Request, q1: Request, quiet: bool)
    requires Accepts(e.book, q0.cmd) && Accepts(Step(e, q0, quiet).book, q1.cmd)
    ensures Ready(e, [q0, q1], quiet)
    ensures Run(e, [q0, q1], quiet) == Step(Step(e, q0, quiet), q1, quiet)
  {
    hide Step, Accepts, Ready, Run;
    RunNone(e, quiet);
    RunStep(e, [], q0, quiet);
    assert [] + [q0] == [q0] && [q0] + [q1] == [q0, q1];
    RunStep(e, [q0], q1, quiet);
  }

  /** A quiet step changes the book alone. */
  lemma QuietStep(e: Engine, q: Request)
    requires Accepts(e.book, q.cmd)
    ensures Step(e, q, true) == e.(book := Step(e, q, true).book)
  {
  }

  /** The book a request leaves depends on the book it finds, not on whether it is handled live or replayed. */
  lemma SameBook(e: Engine, d: Engine, q: Request, quiet: bool, quiet': bool)
    requires e.book == d.book && Accepts(e.book, q.cmd)
    ensures Step(e, q, quiet).book == Step(d, q, quiet').book
  {
  }

  lemma {:induction false} ReadyPrefix(e: Engine, qs: seq<Request>, n: nat, quiet: bool)
    requires Ready(e, qs, quiet) && n <= |qs|
    ensures Ready(e, qs[..n], quiet)
    ensures n < |qs| ==> Accepts(Run(e, qs[..n], quiet).book, qs[n].cmd)
  {
    if n == |qs| {
      assert qs[..n] == qs;
    } else if n < |qs| - 1 {
      ReadyPrefix(e, qs[..|qs| - 1], n, quiet);
      assert qs[..|qs| - 1][..n] == qs[..n];
    }
  }

  /** One more quiet request, told from any engine with the run's book. */
  lemma QuietNext(e: Engine, d: Engine, qs: seq<Request>, q: Request, all: seq<Request>)
    requires Ready(d, all, true) && qs + [q] <= all
    ensures Ready(d, qs, true) && Ready(d, qs + [q], true)
    ensures var now := e.(book := Run(d, qs, true).book);
      Accepts(now.book, q.cmd) && Step(now, q, true) == e.(book := Run(d, qs + [q], true).book)
  {
    hide Step, Accepts;
    ReadyPrefix(d, all, |qs|, true);
    assert all[..|qs|] == qs && all[|qs|] == (qs + [q])[|qs|] == q;
    RunStep(d, qs, q, true);
    SameBook(e.(book := Run(d, qs, true).book), Run(d, qs, true), q, true, true);
    QuietStep(e.(book := Run(d, qs, true).book), q);
  }
}
