/**
 What a match costs, told from the resting orders it will meet: how much of each is taken, and what the
 incoming order gives for it, to everyone or to the users of one slot.
 */
module Costs {
  import opened CoreTypes
  import opened Sweeps
  import opened Balances

  /** What changes hands for a quantity: its price in funds when it is bought, itself when it is sold. */
  function Worth(paid: bool, price: int, qty: int): int {
    if paid then price * qty else qty
  }

  predicate Counts(to: Option<nat>, user: nat) {
    to.None? || SlotOf(user) == to.value
  }

  function GivenBy(a: Act, paid: bool, to: Option<nat>): int {
    if a.Fill? && Counts(to, a.resting.user) then Worth(paid, a.resting.price, a.qty) else 0
  }

  /** What the acts of a match gave for their fills. */
  function Given(acts: seq<Act>, paid: bool, to: Option<nat>): int {
    if acts == [] then 0 else GivenBy(acts[0], paid, to) + Given(acts[1..], paid, to)
  }

  /** What will be taken of the i-th order. */
  function Taken(s: seq<OrderRec>, inc: OrderRec, i: nat): int
    requires i < |s|
  {
    if Touched(s, inc, i) && s[i].user != inc.user then Min(s[i].rem, inc.rem - Offered(s, inc.user, i)) else 0
  }

  /** What will be given for the orders from the i-th on. */
  function Asked(s: seq<OrderRec>, inc: OrderRec, paid: bool, to: Option<nat>, i: nat): int
    requires i <= |s|
    decreases |s| - i
  {
    if i == |s| then 0
    else
      (if Counts(to, s[i].user) then Worth(paid, s[i].price, Taken(s, inc, i)) else 0) + Asked(s, inc, paid, to, i + 1)
  }

  /** Behind an order the loop does not come to, it comes to none. */
  lemma UntouchedOn(s: seq<OrderRec>, inc: OrderRec, i: nat)
    requires AllSound(s) && i + 1 < |s| && !Touched(s, inc, i)
    ensures !Touched(s, inc, i + 1)
  {
  }

  lemma {:induction false} UntouchedFree(s: seq<OrderRec>, inc: OrderRec, paid: bool, to: Option<nat>, i: nat)
    requires AllSound(s) && i <= |s| && (i < |s| ==> !Touched(s, inc, i))
    ensures Asked(s, inc, paid, to, i) == 0
    decreases |s| - i
  {
    if i < |s| {
      if i + 1 < |s| {
        UntouchedOn(s, inc, i);
      }
      UntouchedFree(s, inc, paid, to, i + 1);
    }
  }

  lemma {:induction false} GivenFrom(s: seq<OrderRec>, inc: OrderRec, paid: bool, to: Option<nat>, i: nat)
    requires AllSound(s) && i <= |Sweep(s, inc).acts| <= |s|
    ensures Given(Sweep(s, inc).acts[i..], paid, to) == Asked(s, inc, paid, to, i)
    decreases |s| - i
  {
    hide Sweep;
    var acts := Sweep(s, inc).acts;
    SweepInOrder(s, inc);
    if i == |acts| {
      UntouchedFree(s, inc, paid, to, i);
    } else {
      GivenFrom(s, inc, paid, to, i + 1);
      assert acts[i..][1..] == acts[i + 1..] && acts[i..][0] == acts[i];
      assert ActSpec(s, inc, acts[i], i);
    }
  }

  /** What a match gives is what the orders before it ask of it. */
  lemma GivenIsAsked(s: seq<OrderRec>, inc: OrderRec, paid: bool, to: Option<nat>)
    requires AllSound(s)
    ensures Given(Sweep(s, inc).acts, paid, to) == Asked(s, inc, paid, to, 0)
  {
    hide Sweep;
    SweepInOrder(s, inc);
    GivenFrom(s, inc, paid, to, 0);
    assert Sweep(s, inc).acts[0..] == Sweep(s, inc).acts;
  }

  /** The quantity that strangers offer at prices the incoming order accepts. */
  function OnOffer(s: seq<OrderRec>, inc: OrderRec): int {
    ReachBounded(s, inc);
    Offered(s, inc.user, Reach(s, inc))
  }

  lemma {:induction false} GivenQty(acts: seq<Act>)
    ensures Given(acts, false, None) == TradedQty(acts)
  {
    if acts != [] {
      GivenQty(acts[1..]);
    }
  }

  /** In quantity, everything on offer is asked for, up to what is wanted. */
  lemma AskedQty(s: seq<OrderRec>, inc: OrderRec)
    requires AllSound(s) && inc.rem >= 0
    ensures Asked(s, inc, false, None, 0) == Min(inc.rem, OnOffer(s, inc))
  {
    hide Sweep;
    GivenIsAsked(s, inc, false, None);
    GivenQty(Sweep(s, inc).acts);
    SweepConserves(s, inc);
    SweepTakes(s, inc);
  }

  lemma TakenPositive(s: seq<OrderRec>, inc: OrderRec, i: nat)
    requires AllSound(s) && i < |s|
    ensures Taken(s, inc, i) >= 0
  {
  }

  /** Nothing is given where nothing is taken, and with a price on every order nothing is taken for nothing. */
  lemma {:induction false} AskedBounds(s: seq<OrderRec>, inc: OrderRec, paid: bool, to: Option<nat>, i: nat)
    requires AllSound(s) && i <= |s| && forall j :: i <= j < |s| ==> s[j].price >= 0
    ensures Asked(s, inc, paid, to, i) >= 0 && Asked(s, inc, false, None, i) >= 0
    ensures Asked(s, inc, false, None, i) == 0 ==> Asked(s, inc, paid, to, i) == 0
    ensures (forall j :: i <= j < |s| ==> s[j].price >= 1) ==>
      Asked(s, inc, false, None, i) <= Asked(s, inc, paid, None, i)
    decreases |s| - i
  {
    hide Taken;
    if i < |s| {
      AskedBounds(s, inc, paid, to, i + 1);
      TakenPositive(s, inc, i);
      TimesMonotone(0, s[i].price, Taken(s, inc, i));
      if s[i].price >= 1 {
        TimesMonotone(1, s[i].price, Taken(s, inc, i));
      }
    }
  }

  /** A match of an order that wants something, among orders with a price, is free exactly when no
      stranger offers anything within its reach. */
  lemma FreeExactly(s: seq<OrderRec>, inc: OrderRec, paid: bool)
    requires AllSound(s) && inc.rem >= 1 && forall j :: 0 <= j < |s| ==> s[j].price >= 1
    ensures Asked(s, inc, paid, None, 0) == 0 <==> OnOffer(s, inc) == 0
    ensures OnOffer(s, inc) == 0 ==> forall to :: Asked(s, inc, paid, to, 0) == 0
  {
    AskedQty(s, inc);
    forall to ensures Asked(s, inc, false, None, 0) == 0 ==> Asked(s, inc, paid, to, 0) == 0 {
      AskedBounds(s, inc, paid, to, 0);
    }
    AskedBounds(s, inc, paid, None, 0);
    ReachBounded(s, inc);
    OfferedGrows(s, inc.user, Reach(s, inc));
  }
}
