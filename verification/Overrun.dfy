/**
 What a rejection outside the bitset's window does, which nothing in the code rules out: the dispatcher
 takes it for another sequence, passes that one by, and if it was accepted never executes it.
 */
module Overruns {
  import opened CoreTypes
  import opened EngineSpec
  import opened RejectionBitsets
  import opened Sequencers

  /** Rejecting n windows ahead marks the next sequence too, so that passing it is all the dispatcher can do. */
  lemma OverrunConsumes(s: State, w: nat, n: nat)
    requires Inv(s) && Enabled(s, Reject(w)) && s.queues[w][0].seqNo == s.nextServer + n * WINDOW
    ensures var t := Next(s, Reject(w));
      && |t.words| == WORDS && t.nextServer == s.nextServer
      && Enabled(t, Consume) && !Enabled(t, Execute)
      && (n >= 1 && s.nextServer !in s.rejected ==> t.nextServer !in t.rejected)
  {
    BeyondWindow(s.words, s.nextServer, n);
    hide Inv, IsSet, Marked;
    if n >= 1 {
      Ahead(s.nextServer, n);
    }
  }

  lemma Ahead(seqNo: nat, n: nat)
    requires n >= 1
    ensures seqNo + n * WINDOW != seqNo
  {
    assert n * WINDOW >= WINDOW;
  }

  // ----- what has been passed by is never executed, however the run goes on

  /** Enough for the next step to be told. */
  predicate Shaped(s: State) {
    |s.words| == WORDS && s.nextServer >= 1 && s.nextRing >= 1
  }

  /** The request at position i is on the ring, and the dispatcher is past its sequence. */
  predicate Passed(s: State, i: nat) {
    s.nextRing - 1 <= i < |s.ring| && s.ring[i].slot.seqNo < s.nextServer
  }

  /** Runs in which nothing is asked of where rejections fall. */
  ghost predicate Runs(s: State, ls: seq<Label>)
    requires Shaped(s)
    decreases |ls|, 0
  {
    ls == [] || (Runs(s, ls[..|ls| - 1]) && Enabled(Reached(s, ls[..|ls| - 1]), ls[|ls| - 1]))
  }

  ghost function Reached(s: State, ls: seq<Label>): (s': State)
    requires Shaped(s) && Runs(s, ls)
    ensures Shaped(s')
    decreases |ls|, 1
  {
    if ls == [] then s
    else
      var before := Reached(s, ls[..|ls| - 1]);
      NextShaped(before, ls[|ls| - 1]);
      Next(before, ls[|ls| - 1])
  }

  lemma NextShaped(s: State, l: Label)
    requires Shaped(s) && Enabled(s, l)
    ensures Shaped(Next(s, l))
  {
  }

  lemma PassedStays(s: State, l: Label, i: nat)
    requires Shaped(s) && Passed(s, i) && Enabled(s, l)
    ensures Passed(Next(s, l), i) && Next(s, l).ring[i].slot == s.ring[i].slot
    ensures s.nextRing == i + 1 ==> Next(s, l).nextRing == i + 1 && Next(s, l).executed == s.executed
  {
    hide IsSet, Marked, Unmarked;
  }

  /** It stays on the ring for good, and having come to it the dispatcher executes nothing again. */
  lemma {:induction false} PassedForever(s: State, ls: seq<Label>, i: nat)
    requires Shaped(s) && Passed(s, i) && Runs(s, ls)
    ensures Passed(Reached(s, ls), i) && Reached(s, ls).ring[i].slot == s.ring[i].slot
    ensures s.nextRing == i + 1 ==> Reached(s, ls).nextRing == i + 1 && Reached(s, ls).executed == s.executed
  {
    if ls != [] {
      hide Enabled, Next;
      PassedForever(s, ls[..|ls| - 1], i);
      PassedStays(Reached(s, ls[..|ls| - 1]), ls[|ls| - 1], i);
    }
  }

  /** The state after the rejection, n windows ahead, and the dispatcher's move. */
  ghost function PassedBy(s: State, w: nat, n: nat): (t: State)
    requires Inv(s) && Enabled(s, Reject(w)) && s.queues[w][0].seqNo == s.nextServer + n * WINDOW
    ensures Shaped(t) && t.ring == s.ring && t.nextRing == s.nextRing && t.nextServer == s.nextServer + 1
    ensures t.accepted == s.accepted && t.executed == s.executed && t.rejected == s.rejected + {s.queues[w][0].seqNo}
  {
    OverrunConsumes(s, w, n);
    Next(Next(s, Reject(w)), Consume)
  }

  predicate Stays(s: State, i: nat, seqNo: nat) {
    Passed(s, i) && s.ring[i].slot.seqNo == seqNo
  }

  /** So an accepted next sequence is passed by for good: its request stays on the ring whatever follows. */
  lemma OverrunLoses(s: State, w: nat, n: nat, ls: seq<Label>)
    requires Inv(s) && Enabled(s, Reject(w)) && s.queues[w][0].seqNo == s.nextServer + n * WINDOW
    requires s.nextServer in s.accepted && Runs(PassedBy(s, w, n), ls)
    ensures exists i: nat :: Stays(Reached(PassedBy(s, w, n), ls), i, s.nextServer)
  {
    hide Represents, IsSet, QueuesOk, PassedBy, Runs, Reached;
    assert OnRing(s, s.nextServer);
    var i :| 0 <= i < |s.ring| && s.ring[i].slot.seqNo == s.nextServer;
    PassedForever(PassedBy(s, w, n), ls, i);
    assert Stays(Reached(PassedBy(s, w, n), ls), i, s.nextServer);
  }

  // ----- a run that numbers in turn and comes to this

  function Reqs(n: nat, c: Cmd): (q: seq<Req>)
    ensures |q| == n
  {
    seq(n, i requires 0 <= i < n => Req(i + 1, c))
  }

  /** The gateway hands the first worker the sequences 1 to n. */
  function Feed(n: nat, c: Cmd): seq<Label> {
    if n == 0 then [] else Feed(n - 1, c) + [Submit(0, Req(n, c))]
  }

  function History(n: nat, c: Cmd): (h: map<nat, Cmd>)
    ensures forall i: nat :: i in h <==> 1 <= i <= n
  {
    if n == 0 then map[] else History(n - 1, c)[n := c]
  }

  function Fed(n: nat, c: Cmd): State {
    Initial(2).(queues := [Reqs(n, c), []], submitted := History(n, c))
  }

  lemma FedNext(n: nat, c: Cmd)
    ensures Shaped(Fed(n, c)) && Enabled(Fed(n, c), Submit(0, Req(n + 1, c)))
    ensures Next(Fed(n, c), Submit(0, Req(n + 1, c))) == Fed(n + 1, c)
  {
    var s, t := Next(Fed(n, c), Submit(0, Req(n + 1, c))), Fed(n + 1, c);
    assert Reqs(n + 1, c) == Reqs(n, c) + [Req(n + 1, c)];
    assert s.queues == t.queues && s.submitted == t.submitted;
  }

  lemma RunOne(s: State, ls: seq<Label>, l: Label)
    requires Shaped(s) && Runs(s, ls) && Enabled(Reached(s, ls), l)
    ensures Runs(s, ls + [l]) && Reached(s, ls + [l]) == Next(Reached(s, ls), l)
  {
    assert (ls + [l])[..|ls|] == ls;
  }

  lemma {:induction false} FeedRuns(n: nat, c: Cmd)
    ensures Shaped(Initial(2)) && Runs(Initial(2), Feed(n, c)) && Reached(Initial(2), Feed(n, c)) == Fed(n, c)
  {
    if n == 0 {
      assert Reqs(0, c) == [] && Initial(2).queues == [[], []];
    } else {
      FeedRuns(n - 1, c);
      FedNext(n - 1, c);
      hide Initial, Fed, Enabled, Next;
      RunOne(Initial(2), Feed(n - 1, c), Submit(0, Req(n, c)));
    }
  }

  /** The second worker is given the sequence a window ahead of 1, the first claims and publishes 1, the
      second rejects, and the dispatcher moves. */
  function Flood(n: nat, c: Cmd): seq<Label> {
    Feed(n, c) + [Submit(1, Req(n + 1, c))] + [Claim(0)] + [Publish(0)] + [Reject(1)] + [Consume]
  }

  function Shared(n: nat, c: Cmd): State {
    Fed(n, c).(queues := [Reqs(n, c), [Req(n + 1, c)]], submitted := History(n + 1, c))
  }

  function Claimed(n: nat, c: Cmd): State
    requires n >= 1
  {
    Shared(n, c).(queues := [Reqs(n, c)[1..], [Req(n + 1, c)]], claims := [Some(0), None],
                  ring := [Cell(Req(1, c), false)], accepted := {1})
  }

  function Published(n: nat, c: Cmd): State
    requires n >= 1
  {
    Claimed(n, c).(claims := [None, None], ring := [Cell(Req(1, c), true)])
  }

  function Overrun(n: nat, c: Cmd): State
    requires n >= 1
  {
    Published(n, c).(queues := [Reqs(n, c)[1..], []], words := Marked(Initial(2).words, n + 1), rejected := {n + 1})
  }

  function PassedOver(n: nat, c: Cmd): State
    requires n >= 1
  {
    Overrun(n, c).(words := Unmarked(Overrun(n, c).words, 1), nextServer := 2)
  }

  /** l can be taken in s and leads to t. */
  ghost predicate Leads(s: State, l: Label, t: State) {
    Shaped(s) && Enabled(s, l) && Next(s, l) == t
  }

  lemma Shares(n: nat, c: Cmd)
    ensures Leads(Fed(n, c), Submit(1, Req(n + 1, c)), Shared(n, c))
  {
    var s := Next(Fed(n, c), Submit(1, Req(n + 1, c)));
    assert s.queues[1] == [Req(n + 1, c)];
    assert s.queues == Shared(n, c).queues;
  }

  lemma Claims(n: nat, c: Cmd)
    requires n >= 1
    ensures Leads(Shared(n, c), Claim(0), Claimed(n, c)) && Leads(Claimed(n, c), Publish(0), Published(n, c))
  {
    hide IsSet;
    var s, t := Next(Shared(n, c), Claim(0)), Next(Claimed(n, c), Publish(0));
    assert Shared(n, c).queues[0][0] == Req(1, c);
    assert s.queues == Claimed(n, c).queues && s.claims == [Some(0), None] && s.ring == [Cell(Req(1, c), false)];
    assert s.accepted == {1};
    assert t.claims == [None, None] && t.ring == [Cell(Req(1, c), true)];
  }

  lemma Rejects(c: Cmd, n: nat)
    requires n == WINDOW
    ensures Leads(Published(n, c), Reject(1), Overrun(n, c)) && Leads(Overrun(n, c), Consume, PassedOver(n, c))
  {
    hide IsSet, Unmarked;
    var s := Next(Published(n, c), Reject(1));
    assert Published(n, c).queues[1][0] == Req(n + 1, c);
    assert s.queues[1] == [] && s.rejected == {n + 1};
    assert s.queues == Overrun(n, c).queues;
    BeyondWindow(Initial(2).words, 1, 1);
    assert 1 + 1 * WINDOW == n + 1;
  }

  /** A run that numbers its requests in turn, with no more of them in a worker's queue than it holds, at the
      end of which the dispatcher has passed by the accepted request 1: in no continuation is anything ever
      executed. */
  lemma FloodStalls(c: Cmd, n: nat, ls: seq<Label>)
    requires n == WINDOW
    ensures Shaped(Initial(2)) && Runs(Initial(2), Flood(n, c)) && Reached(Initial(2), Flood(n, c)) == PassedOver(n, c)
    ensures 1 in PassedOver(n, c).accepted && Shaped(PassedOver(n, c))
    ensures Runs(PassedOver(n, c), ls) ==> Reached(PassedOver(n, c), ls).executed == []
  {
    FeedRuns(n, c);
    Shares(n, c);
    Claims(n, c);
    Rejects(c, n);
    var t := PassedOver(n, c);
    assert Passed(t, 0) && t.nextRing == 1 && t.executed == [] && Shaped(t) && 1 in t.accepted;
    hide Initial, Fed, Shared, Claimed, Published, Overrun, PassedOver, Passed, Enabled, Next, Feed;
    var s, ls0 := Initial(2), Feed(n, c);
    RunOne(s, ls0, Submit(1, Req(n + 1, c)));
    RunOne(s, ls0 + [Submit(1, Req(n + 1, c))], Claim(0));
    RunOne(s, ls0 + [Submit(1, Req(n + 1, c))] + [Claim(0)], Publish(0));
    RunOne(s, ls0 + [Submit(1, Req(n + 1, c))] + [Claim(0)] + [Publish(0)], Reject(1));
    RunOne(s, ls0 + [Submit(1, Req(n + 1, c))] + [Claim(0)] + [Publish(0)] + [Reject(1)], Consume);
    if Runs(t, ls) {
      PassedForever(t, ls, 0);
    }
  }
}
