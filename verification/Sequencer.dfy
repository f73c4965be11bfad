/**
 The sequencer of one symbol: workers that publish accepted requests to a ring or mark rejected ones in
 the bitset, and a dispatcher that executes in sequence order, each taking one atomic step at a time.
 */
module Sequencers {
  import opened CoreTypes
  import opened EngineSpec
  import opened RejectionBitsets

  const RING_SIZE: nat := 4096

  /** A sequenced request; cmd is what the engine is to do. */
  datatype Req = Req(seqNo: nat, cmd: Cmd)

  /** A claimed ring slot, by ring position: the producer that owns it fills it, then publishes it. */
  datatype Cell = Cell(slot: Req, published: bool)

  datatype State = State(
    queues: seq<seq<Req>>,        // per worker, in arrival order
    claims: seq<Option<nat>>,     // per worker, the ring position claimed and not yet published
    ring: seq<Cell>,              // every position ever claimed, in order of the claims
    words: seq<bv64>,             // the rejection bitset
    nextServer: nat,
    nextRing: nat,
    executed: seq<Req>,
    submitted: map<nat, Cmd>,     // history: sequences handed out
    accepted: set<nat>,           // history: sequences claimed on the ring
    rejected: set<nat>)           // history: sequences marked

  const INITIAL_WORDS: seq<bv64> := seq(WORDS, _ => 0)

  function Initial(workers: nat): State {
    State(seq(workers, _ => []), seq(workers, _ => None), [], INITIAL_WORDS, 1, 1, [], map[], {}, {})
  }

  datatype Label =
    | Submit(w: nat, req: Req)  // the gateway hands a request to a worker
    | Lose(req: Req)            // or numbers it, finds the worker's input full and forgets it
    | Drop(w: nat)              // sequence 0: refused without a mark
    | Reject(w: nat)            // validation fails: marked
    | Claim(w: nat)             // validation passes: a ring position is claimed and filled
    | Publish(w: nat)
    | Consume                   // the dispatcher finds the next sequence rejected
    | Execute                   // or finds it at the head of the ring

  /** Whether a worker is between requests and what it has next. */
  predicate Pops(s: State, w: nat) {
    w < |s.queues| == |s.claims| && s.claims[w].None? && s.queues[w] != []
  }

  predicate Enabled(s: State, l: Label)
    requires |s.words| == WORDS && s.nextServer >= 1
  {
    match l
    case Submit(w, req) => w < |s.queues| && (req.seqNo != 0 ==> req.seqNo !in s.submitted)
    case Lose(req) => req.seqNo != 0 && req.seqNo !in s.submitted
    case Drop(w) => Pops(s, w) && s.queues[w][0].seqNo == 0
    case Reject(w) => Pops(s, w) && s.queues[w][0].seqNo != 0
    case Claim(w) => Pops(s, w) && s.queues[w][0].seqNo != 0 && |s.ring| - (s.nextRing - 1) < RING_SIZE
    case Publish(w) => w < |s.claims| && s.claims[w].Some? && s.claims[w].value < |s.ring|
    case Consume => IsSet(s.words, s.nextServer)
    case Execute =>
      && !IsSet(s.words, s.nextServer)
      && 1 <= s.nextRing <= |s.ring| && s.ring[s.nextRing - 1].published
      && s.ring[s.nextRing - 1].slot.seqNo == s.nextServer
  }

  function Next(s: State, l: Label): State
    requires |s.words| == WORDS && s.nextServer >= 1 && Enabled(s, l)
  {
    match l
    case Submit(w, req) =>
      s.(queues := s.queues[w := s.queues[w] + [req]],
         submitted := if req.seqNo == 0 then s.submitted else s.submitted[req.seqNo := req.cmd])
    case Lose(req) => s.(submitted := s.submitted[req.seqNo := req.cmd])
    case Drop(w) => s.(queues := s.queues[w := s.queues[w][1..]])
    case Reject(w) =>
      var req := s.queues[w][0];
      s.(queues := s.queues[w := s.queues[w][1..]], words := Marked(s.words, req.seqNo),
         rejected := s.rejected + {req.seqNo})
    case Claim(w) =>
      var req := s.queues[w][0];
      s.(queues := s.queues[w := s.queues[w][1..]], ring := s.ring + [Cell(req, false)],
         claims := s.claims[w := Some(|s.ring|)], accepted := s.accepted + {req.seqNo})
    case Publish(w) =>
      var i := s.claims[w].value;
      s.(ring := s.ring[i := s.ring[i].(published := true)], claims := s.claims[w := None])
    case Consume => s.(words := Unmarked(s.words, s.nextServer), nextServer := s.nextServer + 1)
    case Execute =>
      s.(executed := s.executed + [s.ring[s.nextRing - 1].slot], nextRing := s.nextRing + 1,
         nextServer := s.nextServer + 1)
  }

  /** The one thing the bitset needs: no rejection runs a whole window ahead of the dispatcher. */
  predicate InWindow(s: State, l: Label) {
    l.Reject? && Pops(s, l.w) ==> s.queues[l.w][0].seqNo < s.nextServer + WINDOW
  }

  // ----- the invariant

  /** Sequences still waiting in some worker's queue were submitted, are undecided and are all different. */
  ghost predicate QueuesOk(s: State) {
    && |s.queues| == |s.claims|
    && (forall w, i :: At(s, w, i) ==> Undecided(s, s.queues[w][i]))
    && (forall w, i, w', i' ::
          At(s, w, i) && At(s, w', i') && s.queues[w][i].seqNo == s.queues[w'][i'].seqNo != 0 ==>
            w == w' && i == i')
  }

  predicate At(s: State, w: int, i: int) {
    0 <= w < |s.queues| && 0 <= i < |s.queues[w]|
  }

  predicate Submitted(s: State, req: Req) {
    req.seqNo in s.submitted && s.submitted[req.seqNo] == req.cmd
  }

  predicate Undecided(s: State, req: Req) {
    req.seqNo == 0 || (Submitted(s, req) && req.seqNo !in s.accepted && req.seqNo !in s.rejected)
  }

  ghost predicate RingOk(s: State) {
    && 1 <= s.nextRing <= |s.ring| + 1 && |s.ring| - (s.nextRing - 1) <= RING_SIZE
    && (forall i :: 0 <= i < |s.ring| ==> s.ring[i].slot.seqNo in s.accepted && Submitted(s, s.ring[i].slot))
    && (forall n :: n in s.accepted ==> n != 0 && OnRing(s, n))
    && (forall i, j :: 0 <= i < j < |s.ring| ==> s.ring[i].slot.seqNo != s.ring[j].slot.seqNo)
    && (forall i :: 0 <= i < |s.ring| ==> (s.ring[i].slot.seqNo >= s.nextServer <==> s.nextRing - 1 <= i))
  }

  ghost predicate OnRing(s: State, n: nat) {
    exists i :: 0 <= i < |s.ring| && s.ring[i].slot.seqNo == n
  }

  /** The accepted requests below n, in increasing order of their sequences. */
  function AcceptedBelow(accepted: set<nat>, submitted: map<nat, Cmd>, n: nat): seq<Req> {
    if n == 0 then []
    else
      AcceptedBelow(accepted, submitted, n - 1) +
      (if n - 1 in accepted && n - 1 in submitted then [Req(n - 1, submitted[n - 1])] else [])
  }

  ghost function Pending(s: State): set<nat> {
    set n | n in s.rejected && n >= s.nextServer
  }

  ghost predicate Inv(s: State) {
    && s.nextServer >= 1
    && QueuesOk(s) && RingOk(s)
    && s.accepted !! s.rejected && s.accepted <= s.submitted.Keys && s.rejected <= s.submitted.Keys && 0 !in s.rejected
    && (forall n: nat :: 1 <= n < s.nextServer ==> n in s.accepted || n in s.rejected)
    && Represents(s.words, Pending(s), s.nextServer)
    && s.executed == AcceptedBelow(s.accepted, s.submitted, s.nextServer)
  }

  lemma InitialInv(workers: nat)
    ensures Inv(Initial(workers))
  {
    var s := Initial(workers);
    assert Pending(s) == {};
    assert AcceptedBelow(s.accepted, s.submitted, 0) == [];
    forall n: nat | 1 <= n < 1 + WINDOW ensures !IsSet(s.words, n) {
      ZeroAnd(Mask(BitOf(n)));
    }
  }

  /** A sequence the dispatcher has not passed is all an undecided request can have. */
  lemma UndecidedAhead(s: State, req: Req)
    requires Inv(s) && Undecided(s, req) && req.seqNo != 0
    ensures req.seqNo >= s.nextServer
  {
  }

  /** What is decided at n or above does not change the accepted requests below n. */
  lemma {:induction false} BelowSame(accepted: set<nat>, submitted: map<nat, Cmd>, accepted': set<nat>,
                                     submitted': map<nat, Cmd>, n: nat)
    requires forall m :: 0 <= m < n ==> (m in accepted <==> m in accepted')
    requires accepted <= submitted.Keys
    requires forall m :: m in submitted ==> m in submitted' && submitted'[m] == submitted[m]
    ensures AcceptedBelow(accepted', submitted', n) == AcceptedBelow(accepted, submitted, n)
  {
    if n > 0 {
      BelowSame(accepted, submitted, accepted', submitted', n - 1);
    }
  }

  lemma PoppedOk(s: State, s': State, w: nat, n: nat)
    requires QueuesOk(s) && Pops(s, w) && n == s.queues[w][0].seqNo
    requires s'.queues == s.queues[w := s.queues[w][1..]] && |s'.claims| == |s.claims|
    requires s'.submitted == s.submitted
    requires forall m :: m != n ==> (m in s'.accepted <==> m in s.accepted) && (m in s'.rejected <==> m in s.rejected)
    requires n == 0 ==> s'.accepted == s.accepted && s'.rejected == s.rejected
    ensures QueuesOk(s')
  {
    assert At(s, w, 0);
    forall v, i | At(s', v, i) ensures Undecided(s', s'.queues[v][i]) {
      assert At(s, v, if v == w then i + 1 else i);
    }
    forall v, i, v', i' | At(s', v, i) && At(s', v', i') && s'.queues[v][i].seqNo == s'.queues[v'][i'].seqNo != 0
      ensures v == v' && i == i'
    {
      assert At(s, v, if v == w then i + 1 else i) && At(s, v', if v' == w then i' + 1 else i');
    }
  }

  lemma QueuesSame(s: State, s': State)
    requires QueuesOk(s) && s'.queues == s.queues && |s'.claims| == |s.claims|
    requires forall req :: Submitted(s, req) ==> Submitted(s', req)
    requires s'.accepted == s.accepted && s'.rejected == s.rejected
    ensures QueuesOk(s')
  {
    forall v, i | At(s', v, i) ensures Undecided(s', s'.queues[v][i]) {
      assert At(s, v, i);
    }
    forall v, i, v', i' | At(s', v, i) && At(s', v', i') && s'.queues[v][i].seqNo == s'.queues[v'][i'].seqNo != 0
      ensures v == v' && i == i'
    {
      assert At(s, v, i) && At(s, v', i');
    }
  }

  lemma SubmitInv(s: State, w: nat, req: Req)
    requires Inv(s) && Enabled(s, Submit(w, req))
    ensures Inv(Next(s, Submit(w, req)))
  {
    var s' := Next(s, Submit(w, req));
    hide Represents;
    BelowSame(s.accepted, s.submitted, s'.accepted, s'.submitted, s.nextServer);
    assert Pending(s') == Pending(s);
    forall v, i | At(s', v, i) ensures Undecided(s', s'.queues[v][i]) {
      if v != w || i < |s.queues[w]| {
        assert At(s, v, i);
      }
    }
    forall v, i, v', i' | At(s', v, i) && At(s', v', i') && s'.queues[v][i].seqNo == s'.queues[v'][i'].seqNo != 0
      ensures v == v' && i == i'
    {
      if v != w || i < |s.queues[w]| {
        assert At(s, v, i);
      }
      if v' != w || i' < |s.queues[w]| {
        assert At(s, v', i');
      }
    }
    OnRingSame(s, s');
  }

  lemma OnRingSame(s: State, s': State)
    requires RingOk(s) && s'.accepted == s.accepted && |s'.ring| == |s.ring|
    requires forall i :: 0 <= i < |s.ring| ==> s'.ring[i].slot == s.ring[i].slot
    ensures forall n :: n in s'.accepted ==> OnRing(s', n)
  {
    forall n | n in s'.accepted ensures OnRing(s', n) {
      assert OnRing(s, n);
      var i :| 0 <= i < |s.ring| && s.ring[i].slot.seqNo == n;
      assert s'.ring[i].slot.seqNo == n;
    }
  }

  lemma LoseInv(s: State, req: Req)
    requires Inv(s) && Enabled(s, Lose(req))
    ensures Inv(Next(s, Lose(req)))
  {
    var s' := Next(s, Lose(req));
    hide Represents, QueuesOk;
    BelowSame(s.accepted, s.submitted, s'.accepted, s'.submitted, s.nextServer);
    assert Pending(s') == Pending(s);
    QueuesSame(s, s');
    OnRingSame(s, s');
  }

  lemma DropInv(s: State, w: nat)
    requires Inv(s) && Enabled(s, Drop(w))
    ensures Inv(Next(s, Drop(w)))
  {
    var s' := Next(s, Drop(w));
    hide Represents;
    assert Pending(s') == Pending(s);
    PoppedOk(s, s', w, 0);
    OnRingSame(s, s');
  }

  lemma RejectInv(s: State, w: nat)
    requires Inv(s) && Enabled(s, Reject(w)) && InWindow(s, Reject(w))
    ensures Inv(Next(s, Reject(w)))
  {
    var s', n := Next(s, Reject(w)), s.queues[w][0].seqNo;
    hide Represents, Marked;
    assert At(s, w, 0);
    UndecidedAhead(s, s.queues[w][0]);
    assert Pending(s') == Pending(s) + {n};
    MarkRepresents(s.words, Pending(s), s.nextServer, n);
    PoppedOk(s, s', w, n);
    OnRingSame(s, s');
  }

  lemma ClaimRing(s: State, w: nat)
    requires RingOk(s) && s.nextServer >= 1 && |s.words| == WORDS && Enabled(s, Claim(w))
    requires s.queues[w][0].seqNo >= s.nextServer && Submitted(s, s.queues[w][0]) && s.queues[w][0].seqNo !in s.accepted
    ensures RingOk(Next(s, Claim(w)))
  {
    var s', n := Next(s, Claim(w)), s.queues[w][0].seqNo;
    forall m | m in s'.accepted ensures OnRing(s', m) {
      if m == n {
        assert s'.ring[|s.ring|].slot.seqNo == n;
      } else {
        assert OnRing(s, m);
        var i :| 0 <= i < |s.ring| && s.ring[i].slot.seqNo == m;
        assert s'.ring[i].slot.seqNo == m;
      }
    }
  }

  lemma ClaimInv(s: State, w: nat)
    requires Inv(s) && Enabled(s, Claim(w))
    ensures Inv(Next(s, Claim(w)))
  {
    var s', n := Next(s, Claim(w)), s.queues[w][0].seqNo;
    hide Represents, RingOk;
    assert At(s, w, 0);
    UndecidedAhead(s, s.queues[w][0]);
    ClaimRing(s, w);
    BelowSame(s.accepted, s.submitted, s'.accepted, s'.submitted, s.nextServer);
    assert Pending(s') == Pending(s);
    PoppedOk(s, s', w, n);
  }

  lemma PublishInv(s: State, w: nat)
    requires Inv(s) && Enabled(s, Publish(w))
    ensures Inv(Next(s, Publish(w)))
  {
    var s' := Next(s, Publish(w));
    assert s.claims[w].Some?;
    hide Represents, QueuesOk;
    assert Pending(s') == Pending(s);
    QueuesSame(s, s');
    OnRingSame(s, s');
  }

  /** The dispatcher moves on by one: past a sequence not on the ring, or with the ring's head. */
  lemma DispatchedRing(s: State, s': State)
    requires RingOk(s) && s'.ring == s.ring && s'.accepted == s.accepted && s'.submitted == s.submitted
    requires s'.nextServer == s.nextServer + 1
    requires if s'.nextRing == s.nextRing then s.nextServer !in s.accepted else
               s'.nextRing == s.nextRing + 1 <= |s.ring| + 1 && s.ring[s.nextRing - 1].slot.seqNo == s.nextServer
    ensures RingOk(s')
  {
    OnRingSame(s, s');
  }

  lemma ConsumeInv(s: State)
    requires Inv(s) && Enabled(s, Consume)
    ensures Inv(Next(s, Consume)) && s.nextServer in s.rejected
  {
    var s' := Next(s, Consume);
    assert s.nextServer in Pending(s);
    DispatchedRing(s, s');
    hide Represents, IsSet, Unmarked, QueuesOk, RingOk;
    UnmarkRepresents(s.words, Pending(s), s.nextServer, s.nextServer);
    SlideRepresents(s'.words, Pending(s) - {s.nextServer}, s.nextServer);
    assert Pending(s') == Pending(s) - {s.nextServer};
    QueuesSame(s, s');
  }

  lemma ExecuteInv(s: State)
    requires Inv(s) && Enabled(s, Execute)
    ensures Inv(Next(s, Execute)) && s.nextServer in s.accepted
  {
    var s' := Next(s, Execute);
    assert s.nextServer !in Pending(s) && s.nextServer in s.accepted && Submitted(s, s.ring[s.nextRing - 1].slot);
    DispatchedRing(s, s');
    hide Represents, IsSet, QueuesOk, RingOk;
    SlideRepresents(s.words, Pending(s), s.nextServer);
    assert Pending(s') == Pending(s);
    QueuesSame(s, s');
  }

  lemma StepInv(s: State, l: Label)
    requires Inv(s) && Enabled(s, l) && InWindow(s, l)
    ensures Inv(Next(s, l))
  {
    hide Inv, InWindow, Next, Enabled;
    match l
    case Submit(w, req) => SubmitInv(s, w, req);
    case Lose(req) => LoseInv(s, req);
    case Drop(w) => DropInv(s, w);
    case Reject(w) => RejectInv(s, w);
    case Claim(w) => ClaimInv(s, w);
    case Publish(w) => PublishInv(s, w);
    case Consume => ConsumeInv(s);
    case Execute => ExecuteInv(s);
  }

  // ----- whole runs

  ghost predicate Possible(s: State, ls: seq<Label>)
    requires Inv(s)
    decreases |ls|, 0
  {
    ls == [] ||
    (Possible(s, ls[..|ls| - 1]) && Enabled(After(s, ls[..|ls| - 1]), ls[|ls| - 1])
     && InWindow(After(s, ls[..|ls| - 1]), ls[|ls| - 1]))
  }

  ghost function After(s: State, ls: seq<Label>): (s': State)
    requires Inv(s) && Possible(s, ls)
    ensures Inv(s')
    decreases |ls|, 1
  {
    if ls == [] then s
    else
      var before := After(s, ls[..|ls| - 1]);
      StepInv(before, ls[|ls| - 1]);
      Next(before, ls[|ls| - 1])
  }

  /** The list is exactly the accepted sequences below n, each once, increasing, with what was submitted. */
  ghost predicate Lists(list: seq<Req>, accepted: set<nat>, submitted: map<nat, Cmd>, n: nat) {
    && (forall i :: 0 <= i < |list| ==>
          list[i].seqNo in accepted && list[i].seqNo in submitted && list[i].seqNo < n &&
          list[i].cmd == submitted[list[i].seqNo])
    && (forall m :: m in accepted && m < n ==> m in submitted && Req(m, submitted[m]) in list)
    && (forall i, j :: 0 <= i < j < |list| ==> list[i].seqNo < list[j].seqNo)
  }

  lemma ListsNext(list: seq<Req>, accepted: set<nat>, submitted: map<nat, Cmd>, n: nat)
    requires Lists(list, accepted, submitted, n)
    ensures n in accepted && n in submitted ==> Lists(list + [Req(n, submitted[n])], accepted, submitted, n + 1)
    ensures n !in accepted ==> Lists(list, accepted, submitted, n + 1)
  {
    if n in accepted && n in submitted {
      var list' := list + [Req(n, submitted[n])];
      forall m | m in accepted && m < n + 1 ensures m in submitted && Req(m, submitted[m]) in list' {
        if m == n {
          assert list'[|list|] == Req(m, submitted[m]);
        }
      }
    }
  }

  lemma {:induction false} BelowMeans(accepted: set<nat>, submitted: map<nat, Cmd>, n: nat)
    requires accepted <= submitted.Keys
    ensures Lists(AcceptedBelow(accepted, submitted, n), accepted, submitted, n)
  {
    if n > 0 {
      hide Lists;
      var m: nat := n - 1;
      var prev := AcceptedBelow(accepted, submitted, m);
      BelowMeans(accepted, submitted, m);
      ListsNext(prev, accepted, submitted, m);
      if m in accepted {
        assert AcceptedBelow(accepted, submitted, n) == prev + [Req(m, submitted[m])];
      } else {
        assert AcceptedBelow(accepted, submitted, n) == prev;
      }
    }
  }

  /** In every interleaving, what has run is exactly the accepted requests below the next sequence, in
      increasing order, each once and as it was submitted; every sequence below it is decided one way. */
  lemma RunInOrder(workers: nat, ls: seq<Label>)
    requires Inv(Initial(workers)) && Possible(Initial(workers), ls)
    ensures var s := After(Initial(workers), ls);
      && Lists(s.executed, s.accepted, s.submitted, s.nextServer)
      && (forall n: nat :: 1 <= n < s.nextServer ==> (n in s.accepted <==> n !in s.rejected))
  {
    hide Possible, After;
    var s := After(Initial(workers), ls);
    hide Represents, QueuesOk, RingOk, Lists, Initial;
    BelowMeans(s.accepted, s.submitted, s.nextServer);
  }

  /** Positions still in use never share a physical slot, so no published request is overwritten. */
  lemma SlotsApart(s: State, i: nat, j: nat)
    requires Inv(s) && s.nextRing - 1 <= i < j < |s.ring|
    ensures i % RING_SIZE != j % RING_SIZE
  {
    if i % RING_SIZE == j % RING_SIZE {
      Congruent(i, j);
      assert false;
    }
  }

  // ----- progress

  /** The next sequence has been rejected, or accepted and published. */
  ghost predicate Resolved(s: State) {
    || s.nextServer in s.rejected
    || exists i :: 0 <= i < |s.ring| && s.ring[i].slot.seqNo == s.nextServer && s.ring[i].published
  }

  /** The next sequence is on the ring, but behind a later one. */
  predicate Stuck(s: State) {
    s.nextServer in s.accepted && 1 <= s.nextRing <= |s.ring| && s.ring[s.nextRing - 1].slot.seqNo != s.nextServer
  }

  /** A resolved next sequence lets the dispatcher move, exactly when it is not stuck behind a later one. */
  lemma ResolvedMoves(s: State)
    requires Inv(s) && Resolved(s)
    ensures (Enabled(s, Consume) || Enabled(s, Execute)) <==> !Stuck(s)
  {
    hide IsSet;
    assert IsSet(s.words, s.nextServer) <==> s.nextServer in Pending(s);
    if s.nextServer !in s.rejected {
      var i :| 0 <= i < |s.ring| && s.ring[i].slot.seqNo == s.nextServer && s.ring[i].published;
      assert i >= s.nextRing - 1;
    }
  }

  /** And stuck is for good: whatever the workers do, nothing is ever executed again. */
  lemma StuckStays(s: State, l: Label)
    requires Inv(s) && Stuck(s) && Enabled(s, l) && InWindow(s, l)
    ensures Stuck(Next(s, l)) && Next(s, l).executed == s.executed && Next(s, l).nextServer == s.nextServer
  {
    hide IsSet;
    assert IsSet(s.words, s.nextServer) <==> s.nextServer in Pending(s);
  }

  lemma {:induction false} StuckForever(s: State, ls: seq<Label>)
    requires Inv(s) && Stuck(s) && Possible(s, ls)
    ensures Stuck(After(s, ls)) && After(s, ls).executed == s.executed
  {
    hide Inv, Enabled, InWindow, Next, Stuck;
    if ls != [] {
      StuckForever(s, ls[..|ls| - 1]);
      StuckStays(After(s, ls[..|ls| - 1]), ls[|ls| - 1]);
    }
  }

  // ----- any number of workers: exactly which runs never stall

  /** The sequences still on the ring climb. */
  ghost predicate Climbs(s: State) {
    s.nextRing >= 1 && forall i, j :: s.nextRing - 1 <= i < j < |s.ring| ==> s.ring[i].slot.seqNo < s.ring[j].slot.seqNo
  }

  /** A claim is of a sequence above all that are still on the ring. */
  ghost predicate Above(s: State, l: Label) {
    s.nextRing >= 1 &&
    (l.Claim? && Pops(s, l.w) ==>
       forall i :: s.nextRing - 1 <= i < |s.ring| ==> s.ring[i].slot.seqNo < s.queues[l.w][0].seqNo)
  }

  /** A later sequence stands at i, before an earlier one at j. */
  predicate Inverted(s: State, i: nat, j: nat) {
    1 <= s.nextRing <= i + 1 && i < j < |s.ring| && s.ring[j].slot.seqNo < s.ring[i].slot.seqNo
  }

  lemma ClimbsOrNot(s: State)
    requires Inv(s)
    ensures Climbs(s) <==> !exists i: nat, j: nat :: Inverted(s, i, j)
  {
    hide Represents;
    if !Climbs(s) {
      var i, j :| s.nextRing - 1 <= i < j < |s.ring| && s.ring[i].slot.seqNo >= s.ring[j].slot.seqNo;
      assert Inverted(s, i, j);
    }
    if i: nat, j: nat :| Inverted(s, i, j) {
      assert s.ring[j].slot.seqNo < s.ring[i].slot.seqNo;
    }
  }

  /** While the ring climbs, a resolved next sequence lets the dispatcher move. */
  lemma ClimbsMoves(s: State)
    requires Inv(s) && Climbs(s) && Resolved(s)
    ensures Enabled(s, Consume) || Enabled(s, Execute)
  {
    hide Represents;
    ResolvedMoves(s);
    if s.nextServer in s.accepted {
      assert OnRing(s, s.nextServer);
      var j :| 0 <= j < |s.ring| && s.ring[j].slot.seqNo == s.nextServer;
      assert s.nextRing - 1 <= j && s.ring[s.nextRing - 1].slot.seqNo >= s.nextServer;
    }
  }

  /** An inversion is never undone: the dispatcher can pass neither of the two. */
  lemma InvertedStays(s: State, l: Label, i: nat, j: nat)
    requires Inv(s) && Inverted(s, i, j) && Enabled(s, l) && InWindow(s, l)
    ensures Inverted(Next(s, l), i, j) && Next(s, l).ring[j].slot == s.ring[j].slot
    ensures s.nextServer <= s.ring[j].slot.seqNo
  {
    hide Represents, IsSet, Marked, Unmarked, QueuesOk;
  }

  lemma {:induction false} InvertedForever(s: State, ls: seq<Label>, i: nat, j: nat)
    requires Inv(s) && Inverted(s, i, j) && Possible(s, ls)
    ensures Inverted(After(s, ls), i, j) && After(s, ls).ring[j].slot == s.ring[j].slot
    ensures After(s, ls).nextServer <= s.ring[j].slot.seqNo
  {
    if ls == [] {
      hide Represents, QueuesOk;
      assert s.ring[j].slot.seqNo >= s.nextServer;
    } else {
      hide Enabled, InWindow, Next, Represents, QueuesOk;
      InvertedForever(s, ls[..|ls| - 1], i, j);
      InvertedStays(After(s, ls[..|ls| - 1]), ls[|ls| - 1], i, j);
      InvertedBounds(After(s, ls), i, j);
    }
  }

  lemma InvertedBounds(s: State, i: nat, j: nat)
    requires Inv(s) && Inverted(s, i, j)
    ensures s.nextServer <= s.ring[j].slot.seqNo
  {
    hide Represents, QueuesOk;
  }

  lemma ClimbsClaim(s: State, w: nat)
    requires |s.words| == WORDS && s.nextServer >= 1 && Enabled(s, Claim(w)) && Climbs(s)
    ensures Climbs(Next(s, Claim(w))) <==> Above(s, Claim(w))
  {
    var s', n := Next(s, Claim(w)), |s.ring|;
    if Climbs(s') {
      assert forall i :: s.nextRing - 1 <= i < n ==> s'.ring[i].slot.seqNo < s'.ring[n].slot.seqNo;
      assert forall i :: s.nextRing - 1 <= i < n ==> s'.ring[i] == s.ring[i];
    }
  }

  lemma ClimbsOther(s: State, l: Label)
    requires |s.words| == WORDS && s.nextServer >= 1 && Enabled(s, l) && Climbs(s) && !l.Claim?
    ensures Climbs(Next(s, l))
  {
    hide IsSet, Marked, Unmarked;
  }

  /** One step keeps the ring climbing exactly when it does not claim a sequence below another's. */
  lemma ClimbsStep(s: State, l: Label)
    requires Inv(s) && Enabled(s, l) && InWindow(s, l)
    ensures Climbs(Next(s, l)) <==> Climbs(s) && Above(s, l)
  {
    assert 1 <= s.nextRing <= |s.ring| + 1;
    StepInv(s, l);
    hide Inv, Enabled, Next, Climbs, InWindow;
    if !Climbs(s) {
      ClimbsOrNot(s);
      ClimbsOrNot(Next(s, l));
      var i: nat, j: nat :| Inverted(s, i, j);
      InvertedStays(s, l, i, j);
    } else if l.Claim? {
      ClimbsClaim(s, l.w);
    } else {
      ClimbsOther(s, l);
    }
  }

  /** Every claim of the run is above what is on the ring. */
  ghost predicate AllAbove(s: State, ls: seq<Label>)
    requires Inv(s) && Possible(s, ls)
  {
    ls == [] || (AllAbove(s, ls[..|ls| - 1]) && Above(After(s, ls[..|ls| - 1]), ls[|ls| - 1]))
  }

  /** The dispatcher will never pass n, whatever is still to come. */
  ghost predicate Barred(s: State, n: nat)
    requires Inv(s)
  {
    forall ls :: Possible(s, ls) ==> After(s, ls).nextServer <= n
  }

  /** Over every run of any number of workers: as long as every claim is of a sequence above those still on
      the ring a resolved next sequence lets the dispatcher move; from the first that is not some accepted
      request bars it for good. */
  lemma {:induction false} ClimbRun(workers: nat, ls: seq<Label>)
    requires Inv(Initial(workers)) && Possible(Initial(workers), ls)
    ensures var s := After(Initial(workers), ls);
      if AllAbove(Initial(workers), ls) then Climbs(s) && (Resolved(s) ==> Enabled(s, Consume) || Enabled(s, Execute))
      else !Climbs(s) && exists n :: n in s.accepted && Barred(s, n)
  {
    hide Inv, Enabled, InWindow, Next, Above, Climbs, Resolved, Barred;
    ClimbsExactly(workers, ls);
    var s := After(Initial(workers), ls);
    if Climbs(s) {
      if Resolved(s) {
        ClimbsMoves(s);
      }
    } else {
      NotClimbing(s);
    }
  }

  lemma {:induction false} ClimbsExactly(workers: nat, ls: seq<Label>)
    requires Inv(Initial(workers)) && Possible(Initial(workers), ls)
    ensures Climbs(After(Initial(workers), ls)) <==> AllAbove(Initial(workers), ls)
  {
    hide Inv, Enabled, InWindow, Next, Above;
    if ls != [] {
      hide Climbs;
      var init := ls[..|ls| - 1];
      ClimbsExactly(workers, init);
      ClimbsStep(After(Initial(workers), init), ls[|ls| - 1]);
    }
  }

  lemma NotClimbing(s: State)
    requires Inv(s) && !Climbs(s)
    ensures exists n :: n in s.accepted && Barred(s, n)
  {
    ClimbsOrNot(s);
    var i: nat, j: nat :| Inverted(s, i, j);
    var n := s.ring[j].slot.seqNo;
    assert n in s.accepted;
    hide Inv, Possible, After;
    forall ls | Possible(s, ls) ensures After(s, ls).nextServer <= n {
      InvertedForever(s, ls, i, j);
    }
    assert Barred(s, n);
  }

  // ----- a lost sequence stops the dispatcher too

  /** Handed out, but neither decided nor waiting with any worker. */
  ghost predicate Lost(s: State, n: nat) {
    && n in s.submitted && n !in s.accepted && n !in s.rejected
    && forall w, i :: At(s, w, i) ==> s.queues[w][i].seqNo != n
  }

  lemma LoseLoses(s: State, req: Req)
    requires Inv(s) && Enabled(s, Lose(req))
    ensures Lost(Next(s, Lose(req)), req.seqNo)
  {
    hide Represents;
    forall w, i | At(s, w, i) ensures s.queues[w][i].seqNo != req.seqNo {
      assert Undecided(s, s.queues[w][i]);
    }
  }

  lemma LostStays(s: State, n: nat, l: Label)
    requires Inv(s) && Lost(s, n) && n >= 1 && Enabled(s, l) && InWindow(s, l)
    ensures Lost(Next(s, l), n) && s.nextServer <= n
    ensures s.nextServer == n ==> Next(s, l).nextServer == n && Next(s, l).executed == s.executed
  {
    var s' := Next(s, l);
    assert l.Consume? ==> s.nextServer in s.rejected by {
      if l.Consume? {
        ConsumeInv(s);
      }
    }
    assert l.Execute? ==> s.nextServer in s.accepted by {
      if l.Execute? {
        ExecuteInv(s);
      }
    }
    hide Represents, IsSet, Marked, Unmarked, RingOk;
    if l.Drop? || l.Reject? || l.Claim? {
      assert At(s, l.w, 0);
    }
    forall w, i | At(s', w, i) ensures s'.queues[w][i].seqNo != n {
      assert (l.Submit? && w == l.w && i == |s.queues[w]|) || At(s, w, i) || At(s, w, i + 1);
    }
  }

  /** The dispatcher never passes a lost sequence, and having come to it executes nothing again. */
  lemma {:induction false} LostForever(s: State, n: nat, ls: seq<Label>)
    requires Inv(s) && Lost(s, n) && n >= 1 && Possible(s, ls)
    ensures Lost(After(s, ls), n) && After(s, ls).nextServer <= n
    ensures s.nextServer == n ==> After(s, ls).nextServer == n && After(s, ls).executed == s.executed
  {
    hide Enabled, InWindow, Next, QueuesOk, RingOk, Represents;
    if ls == [] {
    } else {
      LostForever(s, n, ls[..|ls| - 1]);
      LostStays(After(s, ls[..|ls| - 1]), n, ls[|ls| - 1]);
    }
  }

  /** So whatever is lost in a run, the dispatcher never passes it. */
  lemma {:induction false} LossStalls(s: State, ls: seq<Label>, k: nat)
    requires Inv(s) && Possible(s, ls) && k < |ls| && ls[k].Lose?
    ensures Lost(After(s, ls), ls[k].req.seqNo) && After(s, ls).nextServer <= ls[k].req.seqNo
    ensures ls[k].req.seqNo >= 1
  {
    hide Enabled, InWindow, Next, Lost, Inv;
    var init, l := ls[..|ls| - 1], ls[|ls| - 1];
    var before := After(s, init);
    if k == |ls| - 1 {
      LosesNumbered(before, ls[k].req);
      LoseLoses(before, ls[k].req);
    } else {
      LossStalls(s, init, k);
      LostStays(before, ls[k].req.seqNo, l);
    }
    LostBounds(After(s, ls), ls[k].req.seqNo);
  }

  lemma LosesNumbered(s: State, req: Req)
    requires Inv(s) && Enabled(s, Lose(req))
    ensures req.seqNo >= 1
  {
  }

  lemma LostBounds(s: State, n: nat)
    requires Inv(s) && Lost(s, n)
    ensures n >= 1 ==> s.nextServer <= n
  {
  }

  // ----- one worker fed in order is never stuck

  /** One worker, whose queue, ring and history all run upwards. */
  ghost predicate Fifo(s: State) {
    && |s.queues| == 1
    && (forall i, j :: 0 <= i < j < |s.ring| ==> s.ring[i].slot.seqNo < s.ring[j].slot.seqNo)
    && (forall i, j :: 0 <= i < j < |s.queues[0]| && s.queues[0][i].seqNo != 0 && s.queues[0][j].seqNo != 0 ==>
          s.queues[0][i].seqNo < s.queues[0][j].seqNo)
    && (forall i, j :: 0 <= i < |s.ring| && 0 <= j < |s.queues[0]| && s.queues[0][j].seqNo != 0 ==>
          s.ring[i].slot.seqNo < s.queues[0][j].seqNo)
  }

  /** The gateway numbers upwards. */
  ghost predicate Upwards(s: State, l: Label) {
    (l.Submit? || l.Lose?) && l.req.seqNo != 0 ==> forall n :: n in s.submitted ==> n < l.req.seqNo
  }

  lemma FifoSubmit(s: State, w: nat, req: Req)
    requires Inv(s) && Fifo(s) && Enabled(s, Submit(w, req)) && Upwards(s, Submit(w, req))
    ensures Fifo(Next(s, Submit(w, req)))
  {
    hide Represents;
    forall i | 0 <= i < |s.queues[0]| && s.queues[0][i].seqNo != 0 ensures s.queues[0][i].seqNo in s.submitted {
      assert At(s, 0, i);
    }
  }

  lemma FifoClaim(s: State, w: nat)
    requires Inv(s) && Fifo(s) && Enabled(s, Claim(w))
    ensures Fifo(Next(s, Claim(w)))
  {
    var s' := Next(s, Claim(w));
    hide Inv;
    assert s'.queues[0] == s.queues[0][1..];
  }

  lemma FifoStep(s: State, l: Label)
    requires Inv(s) && Fifo(s) && Enabled(s, l) && InWindow(s, l) && Upwards(s, l)
    ensures Fifo(Next(s, l))
  {
    match l
    case Submit(w, req) => FifoSubmit(s, w, req);
    case Claim(w) => FifoClaim(s, w);
    case _ => hide Represents, IsSet, Marked, Unmarked, QueuesOk, RingOk;
  }

  /** So with one worker, whenever the next sequence is resolved the dispatcher can move. */
  lemma FifoMoves(s: State)
    requires Inv(s) && Fifo(s) && Resolved(s)
    ensures Enabled(s, Consume) || Enabled(s, Execute)
  {
    ResolvedMoves(s);
  }

  ghost predicate AllUpwards(s: State, ls: seq<Label>)
    requires Inv(s) && Possible(s, ls)
  {
    forall i :: 0 <= i < |ls| ==> Possible(s, ls[..i]) && Upwards(After(s, ls[..i]), ls[i])
  }

  /** Over every run of one worker fed upwards, losses and gaps included, a resolved next sequence lets
      the dispatcher move. */
  lemma {:induction false} FifoRun(ls: seq<Label>)
    requires Inv(Initial(1)) && Possible(Initial(1), ls) && AllUpwards(Initial(1), ls)
    ensures Fifo(After(Initial(1), ls))
    ensures Resolved(After(Initial(1), ls)) ==>
              Enabled(After(Initial(1), ls), Consume) || Enabled(After(Initial(1), ls), Execute)
  {
    hide Inv, Enabled, InWindow, Next, Upwards, Resolved;
    if ls == [] {
    } else {
      var init := ls[..|ls| - 1];
      forall i | 0 <= i < |init|
        ensures Possible(Initial(1), init[..i]) && Upwards(After(Initial(1), init[..i]), init[i])
      {
        assert init[..i] == ls[..i];
      }
      FifoRun(init);
      FifoStep(After(Initial(1), init), ls[|ls| - 1]);
    }
    if Resolved(After(Initial(1), ls)) {
      FifoMoves(After(Initial(1), ls));
    }
  }

  // ----- one worker, numbered without a gap and losing nothing, decides everything

  predicate Queued(q: seq<Req>, n: nat) {
    exists i :: 0 <= i < |q| && q[i].seqNo == n
  }

  /** One worker holding the sequences 1 to m: each is decided or queued, and a claim is of the one cell
      not yet published. */
  ghost predicate Flow(s: State, m: nat) {
    && Fifo(s) && |s.claims| == 1
    && (forall n: nat :: n in s.submitted <==> 1 <= n <= m)
    && (forall n: nat :: 1 <= n <= m ==> n in s.accepted || n in s.rejected || Queued(s.queues[0], n))
    && (s.claims[0].Some? ==> s.claims[0].value < |s.ring|)
    && (forall i :: 0 <= i < |s.ring| && !s.ring[i].published ==> s.claims[0] == Some(i))
  }

  /** Some thread can take a step, and whichever way the worker decides the request before it. */
  predicate Moves(s: State)
    requires |s.words| == WORDS && s.nextServer >= 1
  {
    || Enabled(s, Publish(0)) || Enabled(s, Consume) || Enabled(s, Execute) || Enabled(s, Drop(0))
    || (Enabled(s, Reject(0)) && InWindow(s, Reject(0)) && Enabled(s, Claim(0)))
  }

  /** Even a full ring never blocks: what is queued next is then not the next sequence. */
  lemma FlowMoves(s: State, m: nat)
    requires Inv(s) && Flow(s, m) && s.nextServer <= m
    ensures Moves(s)
  {
    var n := s.nextServer;
    if s.claims[0].None? {
      if n in s.accepted || n in s.rejected {
        assert n in s.accepted ==> OnRing(s, n);
        FifoMoves(s);
      } else {
        hide Represents;
        var j :| 0 <= j < |s.queues[0]| && s.queues[0][j].seqNo == n;
        assert At(s, 0, 0) && At(s, 0, j);
        if s.queues[0][0].seqNo != 0 {
          UndecidedAhead(s, s.queues[0][0]);
          assert forall i :: 0 <= i < |s.ring| ==> s.ring[i].slot.seqNo < n;
        }
      }
    }
  }

  /** The sequences handed out so far, and the gateway that counts them 1, 2, 3, ... and loses none. */
  function Top(ls: seq<Label>): nat {
    if ls == [] then 0
    else
      var l := ls[|ls| - 1];
      Top(ls[..|ls| - 1]) + if l.Submit? && l.req.seqNo != 0 then 1 else 0
  }

  predicate InTurn(l: Label, m: nat) {
    !l.Lose? && (l.Submit? ==> l.req.seqNo == 0 || l.req.seqNo == m + 1)
  }

  predicate AllInTurn(ls: seq<Label>) {
    ls == [] || (AllInTurn(ls[..|ls| - 1]) && InTurn(ls[|ls| - 1], Top(ls[..|ls| - 1])))
  }

  lemma FlowSubmit(s: State, m: nat, w: nat, req: Req)
    requires Inv(s) && Flow(s, m) && Enabled(s, Submit(w, req)) && InTurn(Submit(w, req), m)
    ensures Flow(Next(s, Submit(w, req)), if req.seqNo == 0 then m else m + 1)
  {
    var s', m' := Next(s, Submit(w, req)), if req.seqNo == 0 then m else m + 1;
    FifoSubmit(s, w, req);
    hide Inv, Fifo;
    forall n: nat | 1 <= n <= m' ensures n in s'.accepted || n in s'.rejected || Queued(s'.queues[0], n) {
      QueuedMore(s.queues[0], req, n);
    }
  }

  lemma QueuedMore(q: seq<Req>, req: Req, n: nat)
    ensures Queued(q, n) || req.seqNo == n ==> Queued(q + [req], n)
  {
    assert (q + [req])[|q|] == req;
    if Queued(q, n) {
      var i :| 0 <= i < |q| && q[i].seqNo == n;
      assert (q + [req])[i].seqNo == n;
    }
  }

  lemma QueuedTail(q: seq<Req>, n: nat)
    requires q != [] && Queued(q, n) && q[0].seqNo != n
    ensures Queued(q[1..], n)
  {
    var i :| 0 <= i < |q| && q[i].seqNo == n;
    assert q[1..][i - 1].seqNo == n;
  }

  /** The request popped is decided, or had no sequence. */
  lemma FlowPop(s: State, m: nat, l: Label)
    requires Inv(s) && Flow(s, m) && Enabled(s, l) && InWindow(s, l) && (l.Drop? || l.Reject? || l.Claim?)
    ensures Flow(Next(s, l), m)
  {
    var s', q := Next(s, l), s.queues[0];
    FifoStep(s, l);
    hide Inv, Fifo, Marked;
    forall n: nat | 1 <= n <= m ensures n in s'.accepted || n in s'.rejected || Queued(s'.queues[0], n) {
      if Queued(q, n) && q[0].seqNo != n {
        QueuedTail(q, n);
      }
    }
  }

  /** What is left to do: two steps for each queued request, one for a claimed cell, one for each
      sequence to pass. */
  function Work(s: State, m: nat): int
    requires |s.queues| == |s.claims| == 1
  {
    2 * |s.queues[0]| + (if s.claims[0].Some? then 1 else 0) + m + 1 - s.nextServer
  }

  lemma FlowPublish(s: State, m: nat)
    requires Inv(s) && Flow(s, m) && Enabled(s, Publish(0))
    ensures Flow(Next(s, Publish(0)), m)
  {
    FifoStep(s, Publish(0));
    hide Inv, Fifo;
  }

  lemma FlowDispatch(s: State, m: nat, l: Label)
    requires Inv(s) && Flow(s, m) && Enabled(s, l) && (l.Consume? || l.Execute?)
    ensures Flow(Next(s, l), m)
  {
    FifoStep(s, l);
    hide Inv, Fifo, IsSet, Unmarked;
  }

  /** A step of a single worker in turn, or of the dispatcher, keeps the flow; every step but a
      submission uses up some of the work that is left. */
  lemma FlowStep(s: State, m: nat, l: Label)
    requires Inv(s) && Flow(s, m) && Enabled(s, l) && InWindow(s, l) && InTurn(l, m)
    ensures var m' := if l.Submit? && l.req.seqNo != 0 then m + 1 else m;
      Flow(Next(s, l), m') && (!l.Submit? ==> Work(Next(s, l), m) < Work(s, m))
  {
    hide Inv, Fifo, IsSet, Marked, Unmarked;
    match l
    case Submit(w, req) => FlowSubmit(s, m, w, req);
    case Publish(w) => FlowPublish(s, m);
    case Consume => FlowDispatch(s, m, l);
    case Execute => FlowDispatch(s, m, l);
    case _ => FlowPop(s, m, l);
  }

  /** The dispatcher has at most the next sequence still to come. */
  lemma WorkLeft(s: State, m: nat)
    requires Inv(s) && Flow(s, m)
    ensures 0 <= m + 1 - s.nextServer <= Work(s, m)
  {
    if s.nextServer > 1 {
      var n: nat := s.nextServer - 1;
      assert n in s.accepted || n in s.rejected;
    }
  }

  /** One worker, numbered in turn with nothing lost: over every run, until the last sequence is passed
      some thread can move. */
  lemma {:induction false} FlowRun(ls: seq<Label>)
    requires Inv(Initial(1)) && Possible(Initial(1), ls) && AllInTurn(ls)
    ensures var s := After(Initial(1), ls);
      Flow(s, Top(ls)) && (s.nextServer <= Top(ls) ==> Moves(s))
  {
    hide Inv, Enabled, InWindow, Next, InTurn, Moves;
    var s := After(Initial(1), ls);
    if ls == [] {
      assert Flow(s, 0);
    } else {
      var init := ls[..|ls| - 1];
      FlowRun(init);
      hide Flow;
      FlowStep(After(Initial(1), init), Top(init), ls[|ls| - 1]);
    }
    if s.nextServer <= Top(ls) {
      FlowMoves(s, Top(ls));
    }
  }

  ghost predicate NoneNew(ls: seq<Label>) {
    forall i :: 0 <= i < |ls| ==> !ls[i].Submit? && !ls[i].Lose?
  }

  /** And once nothing more is submitted no run goes on for longer than the work that was left, so the
      steps that stay possible pass every sequence. */
  lemma {:induction false} Drains(s: State, m: nat, ls: seq<Label>)
    requires Inv(s) && Flow(s, m) && Possible(s, ls) && NoneNew(ls)
    ensures Flow(After(s, ls), m) && |ls| <= |ls| + Work(After(s, ls), m) <= Work(s, m)
    ensures After(s, ls).nextServer <= m ==> Moves(After(s, ls))
  {
    hide Inv, Enabled, InWindow, Next, Moves, Flow;
    if ls != [] {
      var init, l := ls[..|ls| - 1], ls[|ls| - 1];
      assert !l.Submit? && !l.Lose?;
      Drains(s, m, init);
      FlowStep(After(s, init), m, l);
    }
    WorkLeft(After(s, ls), m);
    if After(s, ls).nextServer <= m {
      FlowMoves(After(s, ls), m);
    }
  }

  // ----- two workers can be stuck

  lemma RunOne(s: State, ls: seq<Label>, l: Label)
    requires Inv(s) && Possible(s, ls) && Enabled(After(s, ls), l) && InWindow(After(s, ls), l)
    ensures Possible(s, ls + [l]) && After(s, ls + [l]) == Next(After(s, ls), l)
  {
    assert (ls + [l])[..|ls|] == ls;
  }

  /** l can be taken in s and leads to t. */
  ghost predicate Leads(s: State, l: Label, t: State) {
    |s.words| == WORDS && s.nextServer >= 1 && Enabled(s, l) && InWindow(s, l) && Next(s, l) == t
  }

  lemma TwoMore(s: State, ls: seq<Label>, l: Label, l': Label, t: State, t': State)
    requires Inv(s) && Possible(s, ls) && Leads(After(s, ls), l, t) && Leads(t, l', t')
    ensures Possible(s, ls + [l, l']) && After(s, ls + [l, l']) == t'
  {
    hide Inv, Enabled, InWindow, Next;
    RunOne(s, ls, l);
    RunOne(s, ls + [l], l');
    assert ls + [l] + [l'] == ls + [l, l'];
  }

  /** Two workers, each with one request, where the later one is first to the ring. */
  function Overtaking(a: Cmd, b: Cmd): seq<Label> {
    Halfway(a, b) + [Claim(0), Publish(0)]
  }

  function Halfway(a: Cmd, b: Cmd): seq<Label> {
    [Submit(0, Req(1, a)), Submit(1, Req(2, b))] + [Claim(1), Publish(1)]
  }

  function Given(a: Cmd): State {
    Initial(2).(queues := [[Req(1, a)], []], submitted := map[1 := a])
  }

  function Shared(a: Cmd, b: Cmd): State {
    Initial(2).(queues := [[Req(1, a)], [Req(2, b)]], submitted := map[1 := a, 2 := b])
  }

  function Claimed(a: Cmd, b: Cmd): State {
    Shared(a, b).(queues := [[Req(1, a)], []], claims := [None, Some(0)], ring := [Cell(Req(2, b), false)],
                  accepted := {2})
  }

  function Midway(a: Cmd, b: Cmd): State {
    Claimed(a, b).(claims := [None, None], ring := [Cell(Req(2, b), true)])
  }

  function Overtaken(a: Cmd, b: Cmd): State {
    Midway(a, b).(queues := [[], []], claims := [Some(1), None],
                  ring := [Cell(Req(2, b), true), Cell(Req(1, a), false)], accepted := {2} + {1})
  }

  function Stalled(a: Cmd, b: Cmd): State {
    Overtaken(a, b).(claims := [None, None], ring := [Cell(Req(2, b), true), Cell(Req(1, a), true)])
  }

  lemma BothGiven(a: Cmd, b: Cmd)
    ensures Leads(Initial(2), Submit(0, Req(1, a)), Given(a))
    ensures Leads(Given(a), Submit(1, Req(2, b)), Shared(a, b))
  {
    var s, t := Next(Initial(2), Submit(0, Req(1, a))), Next(Given(a), Submit(1, Req(2, b)));
    assert s.queues[0] == [Req(1, a)] && t.queues[1] == [Req(2, b)];
    assert s.queues == [[Req(1, a)], []] && t.queues == [[Req(1, a)], [Req(2, b)]];
    assert s.submitted == map[1 := a] && t.submitted == map[1 := a, 2 := b];
  }

  lemma LaterFirst(a: Cmd, b: Cmd)
    ensures Leads(Shared(a, b), Claim(1), Claimed(a, b)) && Leads(Claimed(a, b), Publish(1), Midway(a, b))
  {
    var s, t := Next(Shared(a, b), Claim(1)), Next(Claimed(a, b), Publish(1));
    assert s.queues[1] == [];
    assert s.queues == [[Req(1, a)], []] && s.claims == [None, Some(0)] && s.ring == [Cell(Req(2, b), false)];
    assert t.claims == [None, None] && t.ring == [Cell(Req(2, b), true)];
  }

  lemma EarlierLast(a: Cmd, b: Cmd)
    ensures Leads(Midway(a, b), Claim(0), Overtaken(a, b)) && Leads(Overtaken(a, b), Publish(0), Stalled(a, b))
    ensures var s := Stalled(a, b); Resolved(s) && Stuck(s) && s.accepted == {1, 2} && s.executed == []
  {
    var s, t := Next(Midway(a, b), Claim(0)), Next(Overtaken(a, b), Publish(0));
    assert s.queues[0] == [];
    assert s.queues == [[], []] && s.claims == [Some(1), None];
    assert s.ring == [Cell(Req(2, b), true), Cell(Req(1, a), false)];
    assert t.claims == [None, None] && t.ring == [Cell(Req(2, b), true), Cell(Req(1, a), true)];
    assert t.ring[1].slot.seqNo == t.nextServer && t.ring[1].published;
  }

  /** Both are accepted and published, and neither will ever run. */
  lemma OvertakingStalls(a: Cmd, b: Cmd)
    ensures Inv(Initial(2)) && Possible(Initial(2), Overtaking(a, b))
    ensures var s := After(Initial(2), Overtaking(a, b));
      Resolved(s) && Stuck(s) && s.accepted == {1, 2} && s.executed == []
  {
    hide Inv, Leads, Initial, Given, Shared, Claimed, Midway, Overtaken, Stalled, Resolved, Stuck;
    InitialInv(2);
    BothGiven(a, b);
    LaterFirst(a, b);
    EarlierLast(a, b);
    var start: seq<Label> := [];
    assert Possible(Initial(2), start) && After(Initial(2), start) == Initial(2);
    TwoMore(Initial(2), start, Submit(0, Req(1, a)), Submit(1, Req(2, b)), Given(a), Shared(a, b));
    assert start + [Submit(0, Req(1, a)), Submit(1, Req(2, b))] == [Submit(0, Req(1, a)), Submit(1, Req(2, b))];
    TwoMore(Initial(2), [Submit(0, Req(1, a)), Submit(1, Req(2, b))], Claim(1), Publish(1), Claimed(a, b),
            Midway(a, b));
    TwoMore(Initial(2), Halfway(a, b), Claim(0), Publish(0), Overtaken(a, b), Stalled(a, b));
  }
}
