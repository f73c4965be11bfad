/**
 The sequencer with its engine: in every interleaving of the workers, the engine that the dispatcher drives
 is the engine of one lawful run, so what is proved of runs holds however the workers are scheduled.
 */
module Dispatches {
  import opened EngineSpec
  import opened Runs
  import opened Sequencers
  import B = BookInvariants

  /** The request at the head of the ring. */
  function Head(s: State): Req
    requires 1 <= s.nextRing <= |s.ring|
  {
    s.ring[s.nextRing - 1].slot
  }

  /** The requests that the run executes, each with what the clock reads at its step. */
  ghost function Served(s: State, ls: seq<Label>, clock: nat -> nat): seq<Request>
    requires Inv(s) && Possible(s, ls)
  {
    if ls == [] then []
    else
      var n := |ls| - 1;
      Served(s, ls[..n], clock) +
      if ls[n].Execute? then [Request(Head(After(s, ls[..n])).cmd, clock(n))] else []
  }

  /** The engine, stepped at each execution and at nothing else. */
  ghost function Driven(s: State, ls: seq<Label>, clock: nat -> nat): Engine
    requires Inv(s) && Possible(s, ls)
  {
    if ls == [] then EMPTY
    else
      var n := |ls| - 1;
      var e := Driven(s, ls[..n], clock);
      if ls[n].Execute? then Handled(e, Request(Head(After(s, ls[..n])).cmd, clock(n))) else e
  }

  ghost function Handled(e: Engine, q: Request): Engine {
    if Accepts(e.book, q.cmd) then Step(e, q, false) else e
  }

  lemma ExecutedNext(s: State, l: Label)
    requires Inv(s) && Enabled(s, l)
    ensures l.Execute? ==> 1 <= s.nextRing <= |s.ring|
    ensures Next(s, l).executed == s.executed + if l.Execute? then [Head(s)] else []
  {
    hide Inv;
  }

  /** The list is of the requests' commands, in order. */
  ghost predicate Answers(qs: seq<Request>, list: seq<Req>) {
    |qs| == |list| && forall i :: 0 <= i < |qs| ==> qs[i].cmd == list[i].cmd
  }

  lemma AnswersNext(qs: seq<Request>, list: seq<Req>, req: Req, now: nat)
    requires Answers(qs, list)
    ensures Answers(qs + [Request(req.cmd, now)], list + [req])
  {
  }

  /** What was executed is what was served, request by request. */
  lemma {:induction false} ServedExecuted(s: State, ls: seq<Label>, clock: nat -> nat)
    requires Inv(s) && Possible(s, ls) && s.executed == []
    ensures Answers(Served(s, ls, clock), After(s, ls).executed)
  {
    hide Inv, InWindow, Enabled, Next;
    if ls == [] {
    } else {
      hide Answers;
      var n := |ls| - 1;
      ServedExecuted(s, ls[..n], clock);
      ExecutedNext(After(s, ls[..n]), ls[n]);
      if ls[n].Execute? {
        AnswersNext(Served(s, ls[..n], clock), After(s, ls[..n]).executed, Head(After(s, ls[..n])), clock(n));
      }
    }
  }

  /** The requests accepted so far are orderly, and no new order's id is given to two. */
  ghost predicate Sane(s: State) {
    && s.accepted <= s.submitted.Keys
    && (forall n :: n in s.accepted ==> B.Orderly(s.submitted[n]))
    && (forall n, m :: n in s.accepted && m in s.accepted && n != m && s.submitted[n].Add? && s.submitted[m].Add? ==>
          s.submitted[n].id != s.submitted[m].id)
  }

  lemma ListLawful(s: State, qs: seq<Request>)
    requires Lists(s.executed, s.accepted, s.submitted, s.nextServer) && Sane(s)
    requires Answers(qs, s.executed)
    ensures B.Lawful(qs)
  {
    hide B.Orderly;
    forall i | 0 <= i < |qs|
      ensures s.executed[i].seqNo in s.accepted && qs[i].cmd == s.submitted[s.executed[i].seqNo]
    {
      assert s.executed[i].seqNo in s.submitted;
    }
    assert forall i, j :: 0 <= i < j < |qs| ==> s.executed[i].seqNo < s.executed[j].seqNo;
  }

  lemma ServedLawful(workers: nat, ls: seq<Label>, clock: nat -> nat)
    requires Inv(Initial(workers)) && Possible(Initial(workers), ls) && Sane(After(Initial(workers), ls))
    ensures B.Lawful(Served(Initial(workers), ls, clock))
  {
    hide Inv, Possible, After, Served, Sane, Lists, Answers, B.Lawful;
    RunInOrder(workers, ls);
    assert Initial(workers).executed == [];
    hide Initial;
    ServedExecuted(Initial(workers), ls, clock);
    ListLawful(After(Initial(workers), ls), Served(Initial(workers), ls, clock));
  }

  lemma {:induction false} DrivenIs(s: State, ls: seq<Label>, clock: nat -> nat)
    requires Inv(s) && Possible(s, ls) && B.Lawful(Served(s, ls, clock))
    ensures Ready(EMPTY, Served(s, ls, clock), false)
    ensures Driven(s, ls, clock) == Run(EMPTY, Served(s, ls, clock), false)
  {
    hide Inv, Enabled, InWindow, Next, Accepts, Step, B.Inv;
    var qs := Served(s, ls, clock);
    B.RunInv(qs, false);
    if ls != [] {
      var init := Served(s, ls[..|ls| - 1], clock);
      assert forall i :: 0 <= i < |init| ==> init[i] == qs[i];
      DrivenIs(s, ls[..|ls| - 1], clock);
      if ls[|ls| - 1].Execute? {
        assert qs[..|qs| - 1] == init;
      } else {
        assert qs == init;
      }
    }
  }

  /** In every interleaving of any number of workers the engine's state is that of a lawful run of exactly the
      accepted requests passed so far, in increasing order of their sequences, and its book is sound, sorted
      and uncrossed. */
  lemma InterleavedRun(workers: nat, ls: seq<Label>, clock: nat -> nat)
    requires Inv(Initial(workers)) && Possible(Initial(workers), ls) && Sane(After(Initial(workers), ls))
    ensures var qs, s := Served(Initial(workers), ls, clock), After(Initial(workers), ls);
      && B.Lawful(qs) && Ready(EMPTY, qs, false)
      && Driven(Initial(workers), ls, clock) == Run(EMPTY, qs, false)
      && B.Inv(Driven(Initial(workers), ls, clock).book)
      && Answers(qs, s.executed)
      && Lists(s.executed, s.accepted, s.submitted, s.nextServer)
  {
    hide Inv, Possible, After, Served, Driven, Ready, Run, B.Inv, B.Lawful, Lists, Answers, Sane;
    RunInOrder(workers, ls);
    ServedExecuted(Initial(workers), ls, clock);
    ServedLawful(workers, ls, clock);
    DrivenIs(Initial(workers), ls, clock);
    B.RunInv(Served(Initial(workers), ls, clock), false);
  }
}
