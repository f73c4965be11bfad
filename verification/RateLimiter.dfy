/**
 The rate limiter: a count per user slot and epoch, where the epoch moves on at most once a second and
 is looked at on every 1024th call only.
 */
module RateLimiters {
  import opened CoreTypes
  import opened Balances

  const GATE: nat := 1024
  const EPOCH_MS: nat := 1000
  const U32: nat := 0x1_0000_0000

  datatype Slot = Slot(count: nat, epoch: nat)

  datatype Clock = Clock(epoch: nat, startMs: nat, ops: nat)

  /** Milliseconds since the epoch began, in 64 unsigned bits. */
  function Elapsed(c: Clock, now: nat): nat {
    (now - c.startMs) % U64
  }

  /** Counts the call, and moves to the next epoch if the gate is open and a second has passed. */
  function Advanced(c: Clock, now: nat): Clock {
    var c' := c.(ops := c.ops + 1);
    if c.ops % GATE != 0 || Elapsed(c, now) < EPOCH_MS then c' else c'.(epoch := c.epoch + 1, startMs := now)
  }

  /** A slot last used in another epoch starts counting anew; epochs are compared in 32 bits. */
  function Refreshed(s: Slot, c: Clock): Slot {
    if s.epoch != c.epoch % U32 then Slot(0, c.epoch % U32) else s
  }

  /** One request counted, while the limit is not reached. */
  function Counted(s: Slot, max: nat): Slot {
    if s.count < max then s.(count := s.count + 1) else s
  }

  class RateLimiter {
    const maxInWindow: nat
    const slots: array<Slot>
    var clock: Clock

    ghost predicate Valid() {
      slots.Length == MAX_USERS
    }

    constructor (maxInWindow: nat, now: nat)
      ensures Valid() && this.maxInWindow == maxInWindow && clock == Clock(0, now, 0) && fresh(slots)
      ensures forall k :: 0 <= k < MAX_USERS ==> slots[k] == Slot(0, 0)
    {
      this.maxInWindow := maxInWindow;
      slots := new Slot[MAX_USERS](_ => Slot(0, 0));
      clock := Clock(0, now, 0);
    }

    method MaybeAdvanceEpoch(now: nat)
      modifies this
      ensures clock == Advanced(old(clock), now)
    {
      var gated := clock.ops % GATE != 0;
      clock := clock.(ops := clock.ops + 1);
      if gated {
        return;
      }
      if Elapsed(clock, now) < EPOCH_MS {
        return;
      }
      clock := clock.(epoch := clock.epoch + 1);
      clock := clock.(startMs := now);
    }

    method CheckAndIncrement(user: nat, now: nat) returns (ok: bool)
      requires Valid()
      modifies this, slots
      ensures clock == Advanced(old(clock), now)
      ensures var s := Refreshed(old(slots[SlotOf(user)]), clock);
        && (ok <==> s.count < maxInWindow)
        && slots[..] == old(slots[..])[SlotOf(user) := Counted(s, maxInWindow)]
    {
      MaybeAdvanceEpoch(now);
      var k := SlotOf(user);
      if slots[k].epoch != clock.epoch % U32 {
        slots[k] := slots[k].(count := 0);
        slots[k] := slots[k].(epoch := clock.epoch % U32);
      }
      if slots[k].count >= maxInWindow {
        return false;
      }
      slots[k] := slots[k].(count := slots[k].count + 1);
      ok := true;
    }
  }

  // ----- runs of calls, seen from one slot

  datatype Call = Call(user: nat, now: nat)

  datatype Seen = Seen(clock: Clock, slot: Slot)

  predicate Allows(s: Seen, k: nat, c: Call, max: nat) {
    SlotOf(c.user) == k && Refreshed(s.slot, Advanced(s.clock, c.now)).count < max
  }

  /** What one call does to the clock and to slot k. */
  function After(s: Seen, k: nat, c: Call, max: nat): Seen {
    var clock := Advanced(s.clock, c.now);
    var slot := Refreshed(s.slot, clock);
    Seen(clock, if SlotOf(c.user) == k then Counted(slot, max) else s.slot)
  }

  function Calls(s: Seen, k: nat, cs: seq<Call>, max: nat): Seen {
    if cs == [] then s else After(Calls(s, k, cs[..|cs| - 1], max), k, cs[|cs| - 1], max)
  }

  /** How many of the calls were accepted for slot k. */
  function Accepted(s: Seen, k: nat, cs: seq<Call>, max: nat): nat {
    if cs == [] then 0
    else
      var before := cs[..|cs| - 1];
      Accepted(s, k, before, max) + if Allows(Calls(s, k, before, max), k, cs[|cs| - 1], max) then 1 else 0
  }

  predicate Monotone(from: nat, cs: seq<Call>) {
    forall i, j :: 0 <= i <= j < |cs| ==> from <= cs[i].now <= cs[j].now < U64
  }

  /** What slot k has used of the current epoch. */
  function Used(s: Seen): nat {
    if s.slot.epoch == s.clock.epoch % U32 then s.slot.count else 0
  }

  lemma AfterBounded(s: Seen, k: nat, c: Call, max: nat)
    requires s.slot.count <= max
    ensures After(s, k, c, max).slot.count <= max
    ensures var s' := After(s, k, c, max);
      && s'.clock.epoch - s.clock.epoch == (if Advanced(s.clock, c.now).epoch == s.clock.epoch then 0 else 1)
      && Used(s') >= (if Allows(s, k, c, max) then 1 else 0) + (if s'.clock.epoch == s.clock.epoch then Used(s) else 0)
  {
  }

  /** Each epoch that begins lets through no more than the limit, on top of what was left of the first. */
  lemma {:induction false} AcceptedPerEpoch(s: Seen, k: nat, cs: seq<Call>, max: nat)
    requires s.slot.count <= max
    ensures var e := Calls(s, k, cs, max);
      && e.slot.count <= max && e.clock.epoch >= s.clock.epoch
      && Accepted(s, k, cs, max) + Used(s) <= (e.clock.epoch - s.clock.epoch) * max + Used(e)
  {
    if cs != [] {
      var before, c := cs[..|cs| - 1], cs[|cs| - 1];
      AcceptedPerEpoch(s, k, before, max);
      var d := Calls(s, k, before, max);
      AfterBounded(d, k, c, max);
      var n := d.clock.epoch - s.clock.epoch;
      assert (n + 1) * max == n * max + max;
    }
  }

  /** Epochs that begin during the calls begin a second apart. */
  lemma {:induction false} EpochsApart(s: Seen, k: nat, cs: seq<Call>, max: nat, from: nat)
    requires Monotone(from, cs) && s.clock.startMs <= from
    ensures var e := Calls(s, k, cs, max);
      && e.clock.startMs <= (if cs == [] then from else cs[|cs| - 1].now)
      && e.clock.epoch >= s.clock.epoch
      && (e.clock.epoch > s.clock.epoch ==>
            from + (e.clock.epoch - s.clock.epoch - 1) * EPOCH_MS <= e.clock.startMs)
  {
    if cs != [] {
      EpochsApart(s, k, cs[..|cs| - 1], max, from);
    }
  }

  lemma MonotoneSplit(from: nat, before: seq<Call>, cs: seq<Call>)
    requires Monotone(from, before + cs)
    ensures Monotone(from, before)
    ensures cs != [] ==> Monotone(cs[0].now, cs)
    ensures cs != [] && before != [] ==> before[|before| - 1].now <= cs[0].now
    ensures cs != [] ==> from <= cs[0].now <= cs[|cs| - 1].now
  {
    var all := before + cs;
    assert forall i :: 0 <= i < |before| ==> all[i] == before[i];
    assert forall i :: 0 <= i < |cs| ==> all[|before| + i] == cs[i];
  }

  lemma EpochsWithin(n: nat, T: nat, max: nat)
    requires n > 0 ==> (n - 1) * EPOCH_MS <= T
    ensures n * max + max <= (T / 1000 + 2) * max
  {
    assert n + 1 <= T / 1000 + 2;
    TimesMonotone(n + 1, T / 1000 + 2, max);
    assert (n + 1) * max == n * max + max;
  }

  /** Over any stretch of calls that spans T milliseconds, from any reachable state, a slot gets through
      at most T/1000 + 2 times the limit. */
  lemma RateBound(start: Seen, k: nat, before: seq<Call>, cs: seq<Call>, max: nat, from: nat, T: nat)
    requires start.slot.count <= max && start.clock.startMs <= from && Monotone(from, before + cs)
    requires cs != [] ==> cs[|cs| - 1].now - cs[0].now <= T
    ensures Accepted(Calls(start, k, before, max), k, cs, max) <= (T / 1000 + 2) * max
  {
    hide Calls, Accepted, Monotone;
    var s := Calls(start, k, before, max);
    var e := Calls(s, k, cs, max);
    AcceptedPerEpoch(start, k, before, max);
    AcceptedPerEpoch(s, k, cs, max);
    MonotoneSplit(from, before, cs);
    if cs != [] {
      EpochsApart(start, k, before, max, from);
      EpochsApart(s, k, cs, max, cs[0].now);
      EpochsWithin(e.clock.epoch - s.clock.epoch, T, max);
    } else {
      NoCalls(s, k, max);
      EpochsWithin(0, T, max);
    }
  }

  lemma NoCalls(s: Seen, k: nat, max: nat)
    ensures Accepted(s, k, [], max) == 0
  {
  }

  // ----- and no less than the limit: the epoch does move on, and a slot then counts anew

  /** The calls of slot k. */
  function CallsOf(k: nat, cs: seq<Call>): nat {
    if cs == [] then 0 else CallsOf(k, cs[..|cs| - 1]) + if SlotOf(cs[|cs| - 1].user) == k then 1 else 0
  }

  /** Every one of the calls comes a second or more after the epoch began. */
  predicate AllLate(startMs: nat, cs: seq<Call>) {
    forall i :: 0 <= i < |cs| ==> startMs + 1000 <= cs[i].now < U64
  }

  /** One late call moves the epoch exactly when it is the one that looks at the clock. */
  lemma LateCall(s: Seen, k: nat, c: Call, max: nat)
    requires s.clock.startMs + 1000 <= c.now < U64
    ensures var s' := After(s, k, c, max);
      && s'.clock.ops == s.clock.ops + 1
      && (if s.clock.ops % 1024 == 0 then s'.clock.epoch == s.clock.epoch + 1 && s'.clock.startMs == c.now
          else s'.clock.epoch == s.clock.epoch && s'.clock.startMs == s.clock.startMs)
  {
    assert Elapsed(s.clock, c.now) == c.now - s.clock.startMs;
  }

  /** The number of calls until the next one that looks at the clock. */
  function ToGate(ops: nat): (i: nat)
    ensures i < 1024 && (ops + i) % 1024 == 0
  {
    (1024 - ops % 1024) % 1024
  }

  lemma NotYet(ops: nat, i: nat)
    requires i < ToGate(ops)
    ensures (ops + i) % 1024 != 0
  {
  }

  /** Until that call the epoch stays, whatever comes in. */
  lemma {:induction false} BeforeGate(s: Seen, k: nat, cs: seq<Call>, max: nat, i: nat)
    requires AllLate(s.clock.startMs, cs) && i <= |cs| && i <= ToGate(s.clock.ops)
    ensures var e := Calls(s, k, cs[..i], max).clock;
      e.epoch == s.clock.epoch && e.startMs == s.clock.startMs && e.ops == s.clock.ops + i
  {
    if i > 0 {
      hide After, AllLate, ToGate;
      BeforeGate(s, k, cs, max, i - 1);
      assert cs[..i][..i - 1] == cs[..i - 1];
      assert s.clock.startMs + 1000 <= cs[i - 1].now < U64 by {
        Late(s.clock.startMs, cs, i - 1);
      }
      NotYet(s.clock.ops, i - 1);
      LateCall(Calls(s, k, cs[..i - 1], max), k, cs[i - 1], max);
    }
  }

  lemma Late(startMs: nat, cs: seq<Call>, i: nat)
    requires AllLate(startMs, cs) && i < |cs|
    ensures startMs + 1000 <= cs[i].now < U64
  {
  }

  /** So among any 1024 calls in a row that all come a second after the epoch began, one moves it on. */
  lemma EpochMoves(s: Seen, k: nat, cs: seq<Call>, max: nat)
    requires |cs| >= 1024 && AllLate(s.clock.startMs, cs)
    ensures var i := ToGate(s.clock.ops);
      && Calls(s, k, cs[..i], max).clock.epoch == s.clock.epoch
      && Calls(s, k, cs[..i + 1], max).clock.epoch == s.clock.epoch + 1
      && Calls(s, k, cs[..i + 1], max).clock.startMs == cs[i].now
  {
    hide After, AllLate, ToGate;
    var i := ToGate(s.clock.ops);
    BeforeGate(s, k, cs, max, i);
    Late(s.clock.startMs, cs, i);
    LateCall(Calls(s, k, cs[..i], max), k, cs[i], max);
    assert cs[..i + 1][..i] == cs[..i];
  }

  /** The first call of a slot that has not been used in the epoch is let through. Epochs are told apart in 32
      bits, so after exactly a multiple of 2^32 of them a slot takes its old count for the present one. */
  lemma FirstOfEpoch(s: Seen, k: nat, c: Call, max: nat)
    requires SlotOf(c.user) == k && After(s, k, c, max).clock.epoch % U32 != s.slot.epoch
    ensures Allows(s, k, c, max) <==> max > 0
    ensures var s' := After(s, k, c, max).slot;
      s' == Slot(Min(1, max), After(s, k, c, max).clock.epoch % U32)
  {
  }

  /** An old count that is still ahead of the present epoch's number is not met again within fewer epochs. */
  ghost predicate NotMet(s: Seen, epoch: nat) {
    s.clock.epoch <= epoch && epoch - s.clock.epoch < (s.slot.epoch - s.clock.epoch) % U32
  }

  lemma NotMetDiffers(s: Seen, epoch: nat)
    requires NotMet(s, epoch)
    ensures epoch % U32 != s.slot.epoch
  {
    var a, b := s.slot.epoch - s.clock.epoch, epoch - s.clock.epoch;
    if epoch % U32 == s.slot.epoch {
      assert (a - b) % U32 == (s.slot.epoch - epoch) % U32;
      SameRest(epoch, a, b);
    }
  }

  lemma SameRest(epoch: nat, a: int, b: int)
    requires a - b == epoch % U32 - epoch && 0 <= b < U32
    ensures a % U32 == b
  {
    assert a == b - U32 * (epoch / U32);
  }

  lemma {:induction false} EpochGrows(s: Seen, k: nat, cs: seq<Call>, max: nat)
    ensures Calls(s, k, cs, max).clock.epoch >= s.clock.epoch
  {
    if cs != [] {
      EpochGrows(s, k, cs[..|cs| - 1], max);
    }
  }

  /** What a slot has used never outruns what it was let through with, so that it is refused only at the
      limit: it gets through as often as it calls, up to the limit. */
  lemma {:induction false} Floor(s: Seen, k: nat, cs: seq<Call>, max: nat, got: nat)
    requires Used(s) <= got && (s.slot.count <= got || NotMet(s, Calls(s, k, cs, max).clock.epoch))
    ensures var e, n := Calls(s, k, cs, max), got + Accepted(s, k, cs, max);
      && Used(e) <= n && (e.slot == s.slot || e.slot.count <= n)
      && n >= Min(max, got + CallsOf(k, cs))
  {
    if cs != [] {
      var before, c := cs[..|cs| - 1], cs[|cs| - 1];
      var d := Calls(s, k, before, max);
      EpochGrows(s, k, before, max);
      FloorOnce(d, k, c, max);
      if s.slot.count > got {
        NotMetDiffers(s, After(d, k, c, max).clock.epoch);
      }
      Floor(s, k, before, max, got);
    }
  }

  /** One call: refused only when the limit is used up. */
  lemma FloorOnce(d: Seen, k: nat, c: Call, max: nat)
    ensures var e := After(d, k, c, max);
      && e.clock.epoch >= d.clock.epoch
      && (SlotOf(c.user) != k ==> e.slot == d.slot)
      && (SlotOf(c.user) == k && !Allows(d, k, c, max) ==>
            e.slot.count >= max && (e.slot.epoch == e.clock.epoch % U32) && (max > 0 ==> e.slot == d.slot))
      && (Allows(d, k, c, max) ==> e.slot.count <= d.slot.count + 1)
  {
  }

  // ----- a stretch of calls in parts

  lemma {:induction false} CallsSplit(s: Seen, k: nat, a: seq<Call>, b: seq<Call>, max: nat)
    ensures Calls(s, k, a + b, max) == Calls(Calls(s, k, a, max), k, b, max)
    ensures Accepted(s, k, a + b, max) == Accepted(s, k, a, max) + Accepted(Calls(s, k, a, max), k, b, max)
    ensures CallsOf(k, a + b) == CallsOf(k, a) + CallsOf(k, b)
  {
    if b == [] {
      assert a + b == a;
    } else {
      hide After, Allows;
      CallsSplit(s, k, a, b[..|b| - 1], max);
      assert (a + b)[..|a + b| - 1] == a + b[..|b| - 1];
    }
  }

  lemma OneCall(s: Seen, k: nat, c: Call, max: nat)
    ensures Calls(s, k, [c], max) == After(s, k, c, max)
    ensures Accepted(s, k, [c], max) == if Allows(s, k, c, max) then 1 else 0
    ensures CallsOf(k, [c]) == if SlotOf(c.user) == k then 1 else 0
  {
    assert [c][..0] == [];
  }

  /** The slot's epoch is that of an epoch past or present. */
  ghost predicate LastUsed(s: Seen, last: nat) {
    last <= s.clock.epoch && s.slot.epoch == last % U32
  }

  lemma {:induction false} StaysUsed(s: Seen, k: nat, cs: seq<Call>, max: nat, last: nat) returns (last': nat)
    requires LastUsed(s, last)
    ensures last <= last' && LastUsed(Calls(s, k, cs, max), last')
  {
    if cs == [] {
      last' := last;
    } else {
      last' := StaysUsed(s, k, cs[..|cs| - 1], max, last);
      var d, e := Calls(s, k, cs[..|cs| - 1], max), Calls(s, k, cs, max);
      if e.slot.epoch != d.slot.epoch {
        last' := e.clock.epoch;
      }
    }
  }

  lemma AheadOf(s: Seen, last: nat, epoch: nat)
    requires LastUsed(s, last) && last < s.clock.epoch <= epoch < last + U32
    ensures NotMet(s, epoch)
  {
    var a, b := s.slot.epoch - s.clock.epoch, last + U32 - s.clock.epoch;
    assert a == b + U32 * (-(last / U32) - 1);
    SameResidue(b, -(last / U32) - 1);
  }

  lemma SameResidue(b: int, n: int)
    requires 0 <= b < U32
    ensures (b + U32 * n) % U32 == b
  {
  }

  /** From the call that moves the epoch on, every call of the slot is let through up to the limit, whatever it
      had used before. */
  lemma FloorFromMove(s: Seen, k: nat, c: Call, b: seq<Call>, max: nat, last: nat)
    requires LastUsed(s, last) && After(s, k, c, max).clock.epoch == s.clock.epoch + 1
    requires Calls(After(s, k, c, max), k, b, max).clock.epoch < last + U32
    ensures Accepted(s, k, [c] + b, max) >= Min(max, CallsOf(k, [c] + b))
  {
    hide After, NotMet, LastUsed;
    var s' := After(s, k, c, max);
    CallsSplit(s, k, [c], b, max);
    OneCall(s, k, c, max);
    EpochGrows(s', k, b, max);
    AfterMove(s, k, c, max, last, Calls(s', k, b, max).clock.epoch);
    hide Calls, Accepted, CallsOf;
    if max > 0 {
      Floor(s', k, b, max, if Allows(s, k, c, max) then 1 else 0);
    }
  }

  /** So of any calls in a row, 1024 or more, that begin a second after the epoch did, a slot gets through at
      least as many as it makes from the move on, up to the limit, unless 2^32 epochs go by. */
  lemma RateFloor(s: Seen, k: nat, cs: seq<Call>, max: nat, last: nat)
    requires |cs| >= 1024 && AllLate(s.clock.startMs, cs[..1024])
    requires LastUsed(s, last) && Calls(s, k, cs, max).clock.epoch < last + U32
    ensures Accepted(s, k, cs, max) >= Min(max, CallsOf(k, cs[ToGate(s.clock.ops)..]))
  {
    hide After, AllLate, LastUsed;
    var i := ToGate(s.clock.ops);
    hide ToGate;
    var a, c, b := cs[..i], cs[i], cs[i + 1..];
    assert cs == a + ([c] + b) && cs[i..] == [c] + b && cs[..i + 1] == a + [c];
    assert cs[..1024][..i] == a && cs[..1024][..i + 1] == a + [c];
    EpochMoves(s, k, cs[..1024], max);
    var s1 := Calls(s, k, a, max);
    var last' := StaysUsed(s, k, a, max, last);
    MovedBy(s, k, a, c, b, max);
    hide Calls, Accepted, CallsOf;
    CallsSplit(s, k, a, [c] + b, max);
    FloorFromMove(s1, k, c, b, max, last');
  }

  lemma MovedBy(s: Seen, k: nat, a: seq<Call>, c: Call, b: seq<Call>, max: nat)
    ensures Calls(s, k, a + [c], max) == After(Calls(s, k, a, max), k, c, max)
    ensures Calls(s, k, a + ([c] + b), max) == Calls(After(Calls(s, k, a, max), k, c, max), k, b, max)
  {
    CallsSplit(s, k, a, [c] + b, max);
    CallsSplit(Calls(s, k, a, max), k, [c], b, max);
    CallsSplit(s, k, a, [c], max);
    OneCall(Calls(s, k, a, max), k, c, max);
  }

  lemma AfterMove(s: Seen, k: nat, c: Call, max: nat, last: nat, final: nat)
    requires LastUsed(s, last) && After(s, k, c, max).clock.epoch == s.clock.epoch + 1 <= final < last + U32
    ensures var s' := After(s, k, c, max);
      if SlotOf(c.user) == k
      then s'.slot.count == Min(1, max) && (Allows(s, k, c, max) <==> max > 0)
      else s'.slot == s.slot && Used(s') == 0 && NotMet(s', final) && !Allows(s, k, c, max)
  {
    var s' := After(s, k, c, max);
    var moved := Seen(s'.clock, s.slot);
    AheadOf(moved, last, final);
    AheadOf(moved, last, s'.clock.epoch);
    NotMetDiffers(moved, s'.clock.epoch);
  }
}
