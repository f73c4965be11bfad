/**
 The match loop as a function of the opposite side: what an incoming order does to the resting orders
 it meets, in price-time order, and what that amounts to in closed form.
 */
module Sweeps {
  import opened CoreTypes
  import opened PriceTime

  /** A resting order the loop can make progress on. */
  predicate Sound(r: OrderRec) {
    0 < r.rem <= r.qty
  }

  ghost predicate AllSound(s: seq<OrderRec>) {
    forall i :: 0 <= i < |s| ==> Sound(s[i])
  }

  /** Market orders cross any price; limit orders cross down (or up) to their own. */
  predicate Crosses(inc: OrderRec, price: int) {
    inc.kind.Market? || if inc.side.Buy? then inc.price >= price else inc.price <= price
  }

  /** One turn of the loop: the user's own order is cancelled on contact, any other is traded against.
      best is the opposite side's front price once the turn is over. */
  datatype Act =
    | SelfCancel(resting: OrderRec, best: int)
    | Fill(aggressor: OrderRec, resting: OrderRec, qty: int, best: int)

  datatype Swept = Swept(rest: seq<OrderRec>, inc: OrderRec, acts: seq<Act>)

  function Front(s: seq<OrderRec>): int {
    if s == [] then 0 else s[0].price
  }

  predicate Stops(s: seq<OrderRec>, inc: OrderRec) {
    inc.rem <= 0 || s == [] || !Crosses(inc, s[0].price)
  }

  function Reduced(r: OrderRec, qty: int): OrderRec {
    r.(rem := r.rem - qty).Restated()
  }

  function IncAfter(s: seq<OrderRec>, inc: OrderRec): OrderRec
    requires s != []
  {
    if s[0].user == inc.user then inc else Reduced(inc, Min(inc.rem, s[0].rem))
  }

  function RestAfter(s: seq<OrderRec>, inc: OrderRec): seq<OrderRec>
    requires s != []
  {
    if s[0].user == inc.user then s[1..]
    else
      var r := Reduced(s[0], Min(inc.rem, s[0].rem));
      if r.state.Filled? then s[1..] else [r] + s[1..]
  }

  function ActOf(s: seq<OrderRec>, inc: OrderRec): Act
    requires s != []
  {
    var best := Front(RestAfter(s, inc));
    if s[0].user == inc.user then SelfCancel(s[0], best)
    else
      var traded := Min(inc.rem, s[0].rem);
      Fill(IncAfter(s, inc), Reduced(s[0], traded), traded, best)
  }

  lemma Progress(s: seq<OrderRec>, inc: OrderRec)
    requires AllSound(s) && !Stops(s, inc)
    ensures AllSound(RestAfter(s, inc))
    ensures 0 <= IncAfter(s, inc).rem <= inc.rem
    ensures IncAfter(s, inc).rem < inc.rem || |RestAfter(s, inc)| < |s|
  {
  }

  /** The loop: a turn lowers the incoming remainder, or leaves it and shortens the opposite side. */
  function Sweep(s: seq<OrderRec>, inc: OrderRec): Swept
    requires AllSound(s)
    decreases if inc.rem > 0 then inc.rem else 0, |s|
  {
    if Stops(s, inc) then Swept(s, inc, [])
    else
      Progress(s, inc);
      var next := Sweep(RestAfter(s, inc), IncAfter(s, inc));
      Swept(next.rest, next.inc, [ActOf(s, inc)] + next.acts)
  }

  // ----- where the loop ends, and what stays sound

  lemma {:induction false} SweepExit(s: seq<OrderRec>, inc: OrderRec)
    requires AllSound(s)
    ensures Stops(Sweep(s, inc).rest, Sweep(s, inc).inc)
    ensures AllSound(Sweep(s, inc).rest)
    ensures inc.rem >= 0 ==> 0 <= Sweep(s, inc).inc.rem <= inc.rem
    ensures Sweep(s, inc).inc == inc.(rem := Sweep(s, inc).inc.rem, state := Sweep(s, inc).inc.state)
    decreases if inc.rem > 0 then inc.rem else 0, |s|
  {
    if !Stops(s, inc) {
      Progress(s, inc);
      SweepExit(RestAfter(s, inc), IncAfter(s, inc));
    }
  }

  /** The loop cut off after n turns, whatever rests on the side. */
  function Turns(s: seq<OrderRec>, inc: OrderRec, n: nat): Swept
    decreases n
  {
    if n == 0 || Stops(s, inc) then Swept(s, inc, [])
    else
      var next := Turns(RestAfter(s, inc), IncAfter(s, inc), n - 1);
      Swept(next.rest, next.inc, [ActOf(s, inc)] + next.acts)
  }

  lemma {:induction false} TurnsSweep(s: seq<OrderRec>, inc: OrderRec, n: nat)
    requires AllSound(s) && Stops(Turns(s, inc, n).rest, Turns(s, inc, n).inc)
    ensures Turns(s, inc, n) == Sweep(s, inc)
    decreases n
  {
    if !Stops(s, inc) {
      Progress(s, inc);
      TurnsSweep(RestAfter(s, inc), IncAfter(s, inc), n - 1);
    }
  }

  /** A resting order of another user without remainder or quantity. */
  predicate Stalls(s: seq<OrderRec>, inc: OrderRec) {
    !Stops(s, inc) && s[0].user != inc.user && s[0].rem == s[0].qty == 0 && s[0].state.New? && inc == inc.Restated()
  }

  /** It is met again and again: after any number of turns side and incoming order are as they were, and
      each turn was a trade of nothing. */
  lemma {:induction false} ZeroQuantityStalls(s: seq<OrderRec>, inc: OrderRec, n: nat)
    requires Stalls(s, inc)
    ensures var m := Turns(s, inc, n);
      && m.rest == s && m.inc == inc && |m.acts| == n
      && forall i :: 0 <= i < n ==> m.acts[i] == Fill(inc, s[0], 0, s[0].price)
    decreases n
  {
    if n > 0 {
      ZeroQuantityStalls(s, inc, n - 1);
      assert [s[0]] + s[1..] == s;
    }
  }

  lemma {:induction false} SweepIds(s: seq<OrderRec>, inc: OrderRec, id: nat)
    requires AllSound(s) && HasId(Sweep(s, inc).rest, id)
    ensures HasId(s, id)
    decreases if inc.rem > 0 then inc.rem else 0, |s|
  {
    if !Stops(s, inc) {
      Progress(s, inc);
      SweepIds(RestAfter(s, inc), IncAfter(s, inc), id);
      var k :| 0 <= k < |RestAfter(s, inc)| && RestAfter(s, inc)[k].id == id;
      var j := if |RestAfter(s, inc)| == |s| then k else k + 1;
      assert s[j].id == id;
    }
  }

  // ----- conservation

  function TradedQty(acts: seq<Act>): int {
    if acts == [] then 0
    else (if acts[0].Fill? then acts[0].qty else 0) + TradedQty(acts[1..])
  }

  function CancelledQty(acts: seq<Act>): int {
    if acts == [] then 0
    else (if acts[0].SelfCancel? then acts[0].resting.rem else 0) + CancelledQty(acts[1..])
  }

  lemma {:induction false} SweepConserves(s: seq<OrderRec>, inc: OrderRec)
    requires AllSound(s)
    ensures var m := Sweep(s, inc);
      && inc.rem == m.inc.rem + TradedQty(m.acts)
      && Open(s) == Open(m.rest) + TradedQty(m.acts) + CancelledQty(m.acts)
    decreases if inc.rem > 0 then inc.rem else 0, |s|
  {
    if !Stops(s, inc) {
      Progress(s, inc);
      var next := Sweep(RestAfter(s, inc), IncAfter(s, inc));
      SweepConserves(RestAfter(s, inc), IncAfter(s, inc));
      assert ([ActOf(s, inc)] + next.acts)[1..] == next.acts;
      assert Open(s) == s[0].rem + Open(s[1..]);
      if s[0].user != inc.user {
        var r := Reduced(s[0], Min(inc.rem, s[0].rem));
        assert !r.state.Filled? ==> Open(RestAfter(s, inc)) == r.rem + Open(s[1..]);
      }
    }
  }

  // ----- who trades with whom, and at what price

  /** No self-trade; a positive amount; at the resting price, which the aggressor accepts. */
  predicate FairAct(inc: OrderRec, a: Act) {
    && Crosses(inc, a.resting.price)
    && (a.SelfCancel? <==> a.resting.user == inc.user)
    && (a.Fill? ==> a.qty > 0 && a.aggressor.user == inc.user && a.aggressor.price == inc.price)
    && (a.Fill? ==> 0 <= a.resting.rem < a.resting.qty)
  }

  ghost predicate AllFair(inc: OrderRec, acts: seq<Act>) {
    forall i :: 0 <= i < |acts| ==> FairAct(inc, acts[i])
  }

  /** From best to worse: each act's resting price is no better than p or than an earlier act's. */
  ghost predicate Worsening(side: Side, acts: seq<Act>) {
    forall i, j :: 0 <= i < j < |acts| ==> Ahead(side, acts[i].resting.price, acts[j].resting.price)
  }

  ghost predicate NoBetter(side: Side, p: int, acts: seq<Act>) {
    forall i :: 0 <= i < |acts| ==> Ahead(side, p, acts[i].resting.price)
  }

  lemma {:induction false} SweepFair(side: Side, s: seq<OrderRec>, inc: OrderRec)
    requires AllSound(s) && Sorted(side, s)
    ensures AllFair(inc, Sweep(s, inc).acts) && Worsening(side, Sweep(s, inc).acts)
    ensures s != [] ==> NoBetter(side, s[0].price, Sweep(s, inc).acts)
    decreases if inc.rem > 0 then inc.rem else 0, |s|
  {
    if !Stops(s, inc) {
      Progress(s, inc);
      var s', inc' := RestAfter(s, inc), IncAfter(s, inc);
      SweepFair(side, s', inc');
      var acts := Sweep(s', inc').acts;
      FairTail(inc, inc', acts);
      if s' == [] {
        assert acts == [];
      } else {
        assert Ahead(side, s[0].price, s'[0].price);
      }
      assert Sweep(s, inc).acts == [ActOf(s, inc)] + acts;
    }
  }

  lemma FairTail(inc: OrderRec, inc': OrderRec, acts: seq<Act>)
    requires AllFair(inc', acts) && inc' == inc.(rem := inc'.rem, state := inc'.state)
    ensures AllFair(inc, acts)
  {
    forall i | 0 <= i < |acts| ensures FairAct(inc, acts[i]) {
      assert FairAct(inc', acts[i]);
    }
  }

  /** The limit itself: a limit order meets no price worse than its own, whether it trades there or cancels
      its user's order; and one with a remainder, its other side not empty, is a limit order that the next
      price is worse for. So a market order ends filled or with the other side empty. */
  lemma {:induction false} SweepLimit(s: seq<OrderRec>, inc: OrderRec)
    requires AllSound(s)
    ensures var m := Sweep(s, inc);
      && (inc.kind.Limit? ==> forall i :: 0 <= i < |m.acts| ==>
            if inc.side.Buy? then m.acts[i].resting.price <= inc.price else m.acts[i].resting.price >= inc.price)
      && (m.inc.rem > 0 && m.rest != [] ==>
            && inc.kind.Limit?
            && if inc.side.Buy? then m.rest[0].price > inc.price else m.rest[0].price < inc.price)
    decreases if inc.rem > 0 then inc.rem else 0, |s|
  {
    if !Stops(s, inc) {
      Progress(s, inc);
      var inc', next := IncAfter(s, inc), Sweep(RestAfter(s, inc), IncAfter(s, inc));
      assert inc'.kind == inc.kind && inc'.side == inc.side && inc'.price == inc.price;
      assert ActOf(s, inc).resting.price == s[0].price;
      SweepLimit(RestAfter(s, inc), inc');
      assert Sweep(s, inc).acts == [ActOf(s, inc)] + next.acts;
    }
  }

  // ----- the closed form: what becomes of the j-th order depends on what stands before it, nothing else

  /** How many orders, from the front, stand at a price the incoming order accepts. */
  function Reach(s: seq<OrderRec>, inc: OrderRec): nat {
    if s == [] || !Crosses(inc, s[0].price) then 0 else 1 + Reach(s[1..], inc)
  }

  /** The quantity that other users offer among the first n orders. */
  function Offered(s: seq<OrderRec>, user: nat, n: nat): int
    requires n <= |s|
  {
    if n == 0 then 0 else Offered(s, user, n - 1) + if s[n - 1].user == user then 0 else s[n - 1].rem
  }

  predicate Touched(s: seq<OrderRec>, inc: OrderRec, j: nat)
    requires j < |s|
  {
    j < Reach(s, inc) && Offered(s, inc.user, j) < inc.rem
  }

  /** What is left of the j-th order: itself, nothing, or itself with the part taken gone. */
  function LeftOf(s: seq<OrderRec>, inc: OrderRec, j: nat): seq<OrderRec>
    requires j < |s|
  {
    if !Touched(s, inc, j) then [s[j]]
    else if s[j].user == inc.user then []
    else
      var taken := Min(s[j].rem, inc.rem - Offered(s, inc.user, j));
      if taken == s[j].rem then [] else [Reduced(s[j], taken)]
  }

  function LeftOfFirst(s: seq<OrderRec>, inc: OrderRec, n: nat): seq<OrderRec>
    requires n <= |s|
  {
    if n == 0 then [] else LeftOfFirst(s, inc, n - 1) + LeftOf(s, inc, n - 1)
  }

  lemma {:induction false} ReachBounded(s: seq<OrderRec>, inc: OrderRec)
    ensures Reach(s, inc) <= |s|
  {
    if s != [] {
      ReachBounded(s[1..], inc);
    }
  }

  lemma {:induction false} OfferedShift(s: seq<OrderRec>, user: nat, n: nat)
    requires s != [] && n < |s|
    ensures Offered(s, user, n + 1) == (if s[0].user == user then 0 else s[0].rem) + Offered(s[1..], user, n)
  {
    if n > 0 {
      OfferedShift(s, user, n - 1);
    }
  }

  lemma {:induction false} OfferedGrows(s: seq<OrderRec>, user: nat, n: nat)
    requires AllSound(s) && n <= |s|
    ensures Offered(s, user, n) >= 0
  {
    if n > 0 {
      OfferedGrows(s, user, n - 1);
    }
  }

  /** On a sorted side that is exactly the orders at prices no worse than the limit, all of them for a market
      order. */
  lemma {:induction false} ReachExact(s: seq<OrderRec>, inc: OrderRec, j: nat)
    requires Sorted(inc.side.Opposite(), s) && j < |s|
    ensures j < Reach(s, inc) <==>
      inc.kind.Market? || (if inc.side.Buy? then s[j].price <= inc.price else s[j].price >= inc.price)
  {
    if j > 0 {
      ReachExact(s[1..], inc, j - 1);
      assert Ahead(inc.side.Opposite(), s[0].price, s[j].price);
    }
  }

  /** Behind the front order, the rest sees an incoming order that has already met it. */
  lemma {:induction false} LeftShift(s: seq<OrderRec>, inc: OrderRec, inc': OrderRec, n: nat)
    requires AllSound(s) && s != [] && n < |s| && Crosses(inc, s[0].price) && inc.rem > 0
    requires inc' == inc.(rem := inc'.rem, state := inc'.state)
    requires inc'.rem == (if s[0].user == inc.user then inc.rem else inc.rem - Min(inc.rem, s[0].rem))
    ensures LeftOfFirst(s, inc, n + 1) == LeftOf(s, inc, 0) + LeftOfFirst(s[1..], inc', n)
  {
    if n > 0 {
      LeftShift(s, inc, inc', n - 1);
      OfferedShift(s, inc.user, n - 1);
      OfferedGrows(s[1..], inc.user, n - 1);
      SameReach(s[1..], inc, inc');
      assert LeftOf(s, inc, n) == LeftOf(s[1..], inc', n - 1);
    }
  }

  lemma {:induction false} SameReach(s: seq<OrderRec>, inc: OrderRec, inc': OrderRec)
    requires inc'.kind == inc.kind && inc'.side == inc.side && inc'.price == inc.price
    ensures Reach(s, inc) == Reach(s, inc')
  {
    if s != [] {
      SameReach(s[1..], inc, inc');
    }
  }

  lemma {:induction false} UntouchedAll(s: seq<OrderRec>, inc: OrderRec, n: nat)
    requires AllSound(s) && Stops(s, inc) && n <= |s|
    ensures LeftOfFirst(s, inc, n) == s[..n]
  {
    if n > 0 {
      UntouchedAll(s, inc, n - 1);
      OfferedGrows(s, inc.user, n - 1);
      assert s[..n] == s[..n - 1] + [s[n - 1]];
    }
  }

  /** The turn that fills the incoming order leaves its counterparty reduced and the rest as it was. */
  lemma LastTurn(s: seq<OrderRec>, inc: OrderRec)
    requires AllSound(s) && !Stops(s, inc) && s[0].user != inc.user && inc.rem < s[0].rem
    ensures IncAfter(s, inc).rem == 0 && RestAfter(s, inc) == LeftOf(s, inc, 0) + s[1..]
    ensures Sweep(s, inc).rest == RestAfter(s, inc) && Sweep(s, inc).inc == IncAfter(s, inc)
  {
    Progress(s, inc);
    assert Stops(RestAfter(s, inc), IncAfter(s, inc));
  }

  lemma EarlierTurn(s: seq<OrderRec>, inc: OrderRec)
    requires AllSound(s) && !Stops(s, inc) && (s[0].user == inc.user || inc.rem >= s[0].rem)
    ensures RestAfter(s, inc) == s[1..] && LeftOf(s, inc, 0) == [] && AllSound(s[1..])
    ensures IncAfter(s, inc).rem == inc.rem - (if s[0].user == inc.user then 0 else s[0].rem)
    ensures Sweep(s, inc).rest == Sweep(s[1..], IncAfter(s, inc)).rest
    ensures Sweep(s, inc).inc == Sweep(s[1..], IncAfter(s, inc)).inc
  {
    Progress(s, inc);
  }

  /** The loop leaves exactly what the closed form says of every order. */
  lemma {:induction false} SweepLeaves(s: seq<OrderRec>, inc: OrderRec)
    requires AllSound(s) && inc.rem >= 0
    ensures Sweep(s, inc).rest == LeftOfFirst(s, inc, |s|)
    decreases |s|
  {
    if Stops(s, inc) {
      UntouchedAll(s, inc, |s|);
    } else {
      hide Sweep, RestAfter, LeftOf;
      LeftShift(s, inc, IncAfter(s, inc), |s| - 1);
      if s[0].user != inc.user && inc.rem < s[0].rem {
        LastTurn(s, inc);
        UntouchedAll(s[1..], IncAfter(s, inc), |s| - 1);
      } else {
        EarlierTurn(s, inc);
        SweepLeaves(s[1..], IncAfter(s, inc));
      }
    }
  }

  /** It takes exactly what other users offer within reach, up to the quantity wanted. */
  lemma {:induction false} SweepTakes(s: seq<OrderRec>, inc: OrderRec)
    requires AllSound(s) && inc.rem >= 0
    ensures Reach(s, inc) <= |s|
    ensures Sweep(s, inc).inc.rem == inc.rem - Min(inc.rem, Offered(s, inc.user, Reach(s, inc)))
    decreases |s|
  {
    ReachBounded(s, inc);
    OfferedGrows(s, inc.user, Reach(s, inc));
    if !Stops(s, inc) {
      var t, inc' := s[1..], IncAfter(s, inc);
      SameReach(t, inc, inc');
      ReachBounded(t, inc);
      OfferedShift(s, inc.user, Reach(t, inc));
      OfferedGrows(t, inc.user, Reach(t, inc));
      if s[0].user != inc.user && inc.rem < s[0].rem {
        LastTurn(s, inc);
      } else {
        EarlierTurn(s, inc);
        SweepTakes(t, inc');
      }
    }
  }

  /** The i-th act is about the i-th order: its cancellation, or a trade of the closed form's amount. */
  ghost predicate ActSpec(s: seq<OrderRec>, inc: OrderRec, a: Act, i: nat)
    requires i < |s|
  {
    var taken := Min(s[i].rem, inc.rem - Offered(s, inc.user, i));
    && Touched(s, inc, i)
    && (if s[i].user == inc.user then a.SelfCancel? && a.resting == s[i]
        else a.Fill? && a.qty == taken && a.resting == Reduced(s[i], taken)
             && a.aggressor.rem == inc.rem - Offered(s, inc.user, i) - taken
             && a.aggressor == inc.(rem := a.aggressor.rem, state := a.aggressor.state))
  }

  lemma ActShift(s: seq<OrderRec>, inc: OrderRec, inc': OrderRec, a: Act, i: nat)
    requires AllSound(s) && !Stops(s, inc) && inc' == IncAfter(s, inc) && i < |s| - 1
    requires s[0].user == inc.user || inc.rem >= s[0].rem
    ensures Touched(s, inc, i + 1) <==> Touched(s[1..], inc', i)
    ensures ActSpec(s[1..], inc', a, i) ==> ActSpec(s, inc, a, i + 1)
  {
    SameReach(s[1..], inc, inc');
    OfferedShift(s, inc.user, i);
    OfferedGrows(s[1..], inc.user, i);
  }

  lemma FirstAct(s: seq<OrderRec>, inc: OrderRec)
    requires AllSound(s) && !Stops(s, inc)
    ensures ActSpec(s, inc, ActOf(s, inc), 0)
    ensures s[0].user != inc.user && inc.rem < s[0].rem && |s| > 1 ==> !Touched(s, inc, 1)
  {
    assert Offered(s, inc.user, 0) == 0;
    assert |s| > 1 ==>
      Offered(s, inc.user, 1) == Offered(s, inc.user, 0) + if s[0].user == inc.user then 0 else s[0].rem;
  }

  /** Price-time priority: the acts are about the first orders of the side, in order, and the sweep goes
      on exactly as long as the next order is within reach and something is still wanted. */
  lemma {:induction false} SweepInOrder(s: seq<OrderRec>, inc: OrderRec)
    requires AllSound(s)
    ensures |Sweep(s, inc).acts| <= |s|
    ensures forall i :: 0 <= i < |Sweep(s, inc).acts| ==> ActSpec(s, inc, Sweep(s, inc).acts[i], i)
    ensures |Sweep(s, inc).acts| < |s| ==> !Touched(s, inc, |Sweep(s, inc).acts|)
    decreases |s|
  {
    var acts := Sweep(s, inc).acts;
    if Stops(s, inc) {
    } else if s[0].user != inc.user && inc.rem < s[0].rem {
      hide ActSpec, Touched, ActOf;
      LastTurn(s, inc);
      Progress(s, inc);
      FirstAct(s, inc);
      assert Sweep(RestAfter(s, inc), IncAfter(s, inc)).acts == [];
    } else {
      hide ActSpec, Touched, ActOf;
      FirstAct(s, inc);
      EarlierTurn(s, inc);
      var t, inc' := s[1..], IncAfter(s, inc);
      SweepInOrder(t, inc');
      var tail := Sweep(t, inc').acts;
      assert acts == [ActOf(s, inc)] + tail;
      forall i | 0 <= i < |acts| ensures ActSpec(s, inc, acts[i], i) {
        if i > 0 {
          ActShift(s, inc, inc', acts[i], i - 1);
        }
      }
      if |acts| < |s| {
        ActShift(s, inc, inc', acts[0], |acts| - 1);
      }
    }
  }

  /** Every fill's aggressor is the incoming order, but for what is left of it. */
  ghost predicate AllBy(inc: OrderRec, acts: seq<Act>) {
    forall i :: 0 <= i < |acts| && acts[i].Fill? ==>
      acts[i].aggressor == inc.(rem := acts[i].aggressor.rem, state := acts[i].aggressor.state)
  }

  lemma SweepBy(s: seq<OrderRec>, inc: OrderRec)
    requires AllSound(s)
    ensures AllBy(inc, Sweep(s, inc).acts)
  {
    SweepInOrder(s, inc);
    var acts := Sweep(s, inc).acts;
    forall i | 0 <= i < |acts| && acts[i].Fill?
      ensures acts[i].aggressor == inc.(rem := acts[i].aggressor.rem, state := acts[i].aggressor.state)
    {
      assert ActSpec(s, inc, acts[i], i);
    }
  }
}
