/**
 The connection table: free connection ids threaded through an array, in sequential use. Ids run from 1;
 0 ends the chain and stands for no connection.
 */
module ConnTables {
  import opened Balances

  const K_MAX: nat := 65536

  datatype ConnState = ConnState(user: nat, lastClientSeq: nat, isActive: bool)

  predicate IsId(id: nat) {
    1 <= id < K_MAX
  }

  /** The i-th free id links to the one after it, the last to 0. */
  predicate Linked(next: seq<nat>, free: seq<nat>, i: nat)
    requires |next| == K_MAX && i < |free|
  {
    IsId(free[i]) && next[free[i]] == if i + 1 < |free| then free[i + 1] else 0
  }

  /** free lists, from top, the ids the links lead through: all different, ending at 0. */
  ghost predicate Chain(next: seq<nat>, top: nat, free: seq<nat>) {
    && |next| == K_MAX
    && top == (if free == [] then 0 else free[0])
    && (forall i: nat {:trigger Linked(next, free, i)} :: i < |free| ==> Linked(next, free, i))
    && (forall i, j :: 0 <= i < j < |free| ==> free[i] != free[j])
  }

  /** The chain is acyclic, its ids are exactly the inactive ones, and its length is kept. */
  ghost predicate FreeList(next: seq<nat>, top: nat, size: nat, active: seq<bool>, free: seq<nat>) {
    && Chain(next, top, free) && size == |free| && |active| == K_MAX
    && (forall id :: 1 <= id < K_MAX ==> (id in free <==> !active[id]))
  }

  ghost predicate WellFormed(next: seq<nat>, top: nat, size: nat, active: seq<bool>) {
    exists free :: FreeList(next, top, size, active, free)
  }

  lemma PopKeeps(next: seq<nat>, top: nat, size: nat, active: seq<bool>, free: seq<nat>)
    requires FreeList(next, top, size, active, free) && top != 0
    ensures IsId(top) && !active[top] && size > 0
    ensures FreeList(next, next[top], size - 1, active[top := true], free[1..])
  {
    assert Linked(next, free, 0) && top in free;
    forall i: nat | i < |free[1..]| ensures Linked(next, free[1..], i) {
      assert Linked(next, free, i + 1);
    }
    forall id | 1 <= id < K_MAX ensures id in free[1..] <==> !active[top := true][id] {
      if id in free && id != top {
        var i :| 0 <= i < |free| && free[i] == id;
        assert free[1..][i - 1] == id;
      }
    }
  }

  lemma PushKeeps(next: seq<nat>, top: nat, size: nat, active: seq<bool>, free: seq<nat>, id: nat)
    requires FreeList(next, top, size, active, free) && IsId(id) && active[id]
    ensures FreeList(next[id := top], id, size + 1, active[id := false], [id] + free)
  {
    var free', next' := [id] + free, next[id := top];
    assert id !in free;
    forall i: nat | i < |free'| ensures Linked(next', free', i) {
      if i > 0 {
        assert Linked(next, free, i - 1) && free[i - 1] in free;
      } else {
        assert free != [] ==> Linked(next, free, 0);
      }
    }
    forall x | 1 <= x < K_MAX ensures x in free' <==> !active[id := false][x] {
      if x in free && x != id {
        var i :| 0 <= i < |free| && free[i] == x;
        assert free'[i + 1] == x;
      }
      if x == id {
        assert free'[0] == x;
      }
    }
  }

  /** From a link that leads to x, chain' repeats chain for as long as chain avoids the relinked id. */
  lemma {:induction false} Follows(next: seq<nat>, top: nat, free: seq<nat>, id: nat, free': seq<nat>, i: nat)
    requires Chain(next, top, free) && IsId(id) && Chain(next[id := top], id, free')
    requires i < |free| && forall j :: 0 <= j < i ==> free[j] != id
    ensures i + 1 < |free'| && free'[i + 1] == free[i]
  {
    if i > 0 {
      Follows(next, top, free, id, free', i - 1);
      assert Linked(next, free, i - 1);
    }
    assert Linked(next, free, i) && Linked(next[id := top], free', i);
  }

  /** Releasing an id that is already free closes the chain into a circle. */
  lemma DoubleReleaseBreaks(next: seq<nat>, top: nat, size: nat, active: seq<bool>, free: seq<nat>, id: nat,
                            free': seq<nat>)
    requires FreeList(next, top, size, active, free) && IsId(id) && !active[id]
    ensures !Chain(next[id := top], id, free')
  {
    if Chain(next[id := top], id, free') {
      var k := FirstAt(free, id);
      Follows(next, top, free, id, free', k);
      assert false;
    }
  }

  lemma FirstAt(s: seq<nat>, x: nat) returns (k: nat)
    requires x in s
    ensures k < |s| && s[k] == x && forall j :: 0 <= j < k ==> s[j] != x
  {
    k := 0;
    while s[k] != x
      invariant 0 <= k < |s| && forall j :: 0 <= j < k ==> s[j] != x
      decreases |s| - k
    {
      var i :| 0 <= i < |s| && s[i] == x;
      k := k + 1;
    }
  }

  /** A release leaves a proper free list exactly when the id was active. */
  lemma ReleaseExact(next: seq<nat>, top: nat, size: nat, active: seq<bool>, id: nat)
    requires WellFormed(next, top, size, active) && IsId(id)
    ensures WellFormed(next[id := top], id, size + 1, active[id := false]) <==> active[id]
  {
    var free :| FreeList(next, top, size, active, free);
    if active[id] {
      PushKeeps(next, top, size, active, free, id);
    } else {
      var next', size', active' := next[id := top], size + 1, active[id := false];
      forall free' ensures !FreeList(next', id, size', active', free') {
        DoubleReleaseBreaks(next, top, size, active, free, id, free');
      }
    }
  }

  lemma NoneFree(next: seq<nat>, top: nat, size: nat, active: seq<bool>, free: seq<nat>)
    requires FreeList(next, top, size, active, free)
    ensures top == 0 <==> forall i :: 1 <= i < K_MAX ==> active[i]
    ensures top == 0 <==> free == []
  {
    if free != [] {
      assert Linked(next, free, 0) && free[0] in free;
    }
  }

  // ----- when an active user is found

  /** What the table says of connections: their states by id, and the id last assigned per user slot. */
  datatype Table = Table(slots: seq<ConnState>, byUser: seq<nat>) {
    predicate Shaped() {
      |slots| == K_MAX && |byUser| == MAX_USERS
    }

    predicate IsActive(id: nat)
      requires Shaped()
    {
      IsId(id) && slots[id].isActive
    }

    function UserSlot(id: nat): nat
      requires Shaped() && IsId(id)
    {
      SlotOf(slots[id].user)
    }

    /** Every slot found leads to an active connection of its own. */
    ghost predicate Points() {
      Shaped() && forall k: nat :: k < MAX_USERS && byUser[k] != 0 ==> IsActive(byUser[k]) && UserSlot(byUser[k]) == k
    }

    /** A user with an active connection is found. */
    ghost predicate AllFound() {
      Shaped() && forall id: nat :: IsActive(id) ==> byUser[UserSlot(id)] != 0
    }

    /** No other active connection is of the same user slot. */
    ghost predicate Alone(id: nat)
      requires Shaped() && IsId(id)
    {
      forall i: nat :: IsActive(i) && i != id ==> UserSlot(i) != UserSlot(id)
    }
  }

  datatype TableOp = Opened(user: nat, id: nat) | Closed(id: nat)

  /** An assignment is given an inactive id; a release is asked for an active one. */
  predicate Suits(t: Table, op: TableOp)
    requires t.Shaped()
  {
    match op
    case Opened(_, id) => IsId(id) && !t.slots[id].isActive
    case Closed(id) => t.IsActive(id)
  }

  function Applied(t: Table, op: TableOp): (t': Table)
    requires t.Shaped() && Suits(t, op)
    ensures t'.Shaped()
  {
    match op
    case Opened(user, id) => Table(t.slots[id := ConnState(user, 0, true)], t.byUser[SlotOf(user) := id])
    case Closed(id) => Table(t.slots[id := t.slots[id].(isActive := false)], t.byUser[t.UserSlot(id) := 0])
  }

  /** Assigning keeps every active user found; releasing does exactly when the connection is the only one
      of its slot, for the slot is cleared even if a newer connection of its is active. */
  lemma AppliedFound(t: Table, op: TableOp)
    requires t.Points() && t.AllFound() && Suits(t, op)
    ensures Applied(t, op).Points()
    ensures Applied(t, op).AllFound() <==> (op.Closed? ==> t.Alone(op.id))
  {
    var t' := Applied(t, op);
    if op.Closed? {
      if !t.Alone(op.id) {
        var i: nat :| t.IsActive(i) && i != op.id && t.UserSlot(i) == t.UserSlot(op.id);
        assert t'.IsActive(i);
      }
      assert forall i: nat :: t'.IsActive(i) ==> t.IsActive(i) && i != op.id;
    } else {
      forall i: nat | t'.IsActive(i) ensures t'.byUser[t'.UserSlot(i)] != 0 {
        if i != op.id {
          assert t.IsActive(i);
        }
      }
    }
  }

  ghost predicate Serves(t: Table, ops: seq<TableOp>)
    requires t.Shaped()
    decreases |ops|, 0
  {
    ops == [] || (Serves(t, ops[..|ops| - 1]) && Suits(TableAfter(t, ops[..|ops| - 1]), ops[|ops| - 1]))
  }

  ghost function TableAfter(t: Table, ops: seq<TableOp>): (t': Table)
    requires t.Shaped() && Serves(t, ops)
    ensures t'.Shaped()
    decreases |ops|, 1
  {
    if ops == [] then t else Applied(TableAfter(t, ops[..|ops| - 1]), ops[|ops| - 1])
  }

  /** After each operation of the run every user with an active connection is found. */
  ghost predicate AlwaysFound(t: Table, ops: seq<TableOp>)
    requires t.Shaped() && Serves(t, ops)
  {
    TableAfter(t, ops).AllFound() && (ops == [] || AlwaysFound(t, ops[..|ops| - 1]))
  }

  /** Every release is of the only active connection of its slot. */
  ghost predicate OneEach(t: Table, ops: seq<TableOp>)
    requires t.Shaped() && Serves(t, ops)
  {
    ops == [] ||
    (OneEach(t, ops[..|ops| - 1]) &&
     (ops[|ops| - 1].Closed? ==> TableAfter(t, ops[..|ops| - 1]).Alone(ops[|ops| - 1].id)))
  }

  /** Over every run from a table that finds its users, such as the empty one, every active user stays
      found if and only if no release is of a connection whose user slot has another. */
  lemma {:induction false} FoundRun(t: Table, ops: seq<TableOp>)
    requires t.Points() && t.AllFound() && Serves(t, ops)
    ensures AlwaysFound(t, ops) <==> OneEach(t, ops)
    ensures AlwaysFound(t, ops) ==> TableAfter(t, ops).Points()
  {
    hide Applied, Suits;
    if ops != [] {
      FoundRun(t, ops[..|ops| - 1]);
      if AlwaysFound(t, ops[..|ops| - 1]) {
        AppliedFound(TableAfter(t, ops[..|ops| - 1]), ops[|ops| - 1]);
      }
    }
  }

  class ConnTable {
    const slots: array<ConnState>
    const nextFree: array<nat>
    const activeByUser: array<nat>
    var freeTop: nat
    var freeSize: nat
    ghost var free: seq<nat>

    ghost function Active(): (a: seq<bool>)
      reads slots
      ensures |a| == slots.Length
    {
      seq(slots.Length, i requires 0 <= i < slots.Length reads slots => slots[i].isActive)
    }

    ghost predicate Valid()
      reads this, slots, nextFree, activeByUser
    {
      && slots.Length == nextFree.Length == K_MAX && activeByUser.Length == MAX_USERS
      && nextFree != activeByUser
      && FreeList(nextFree[..], freeTop, freeSize, Active(), free)
      && View().Points()
    }

    ghost function View(): Table
      reads slots, activeByUser
    {
      Table(slots[..], activeByUser[..])
    }

    constructor ()
      ensures Valid() && freeSize == K_MAX - 1 && View().AllFound()
      ensures forall id :: 1 <= id < K_MAX ==> !slots[id].isActive
      ensures fresh(slots) && fresh(nextFree) && fresh(activeByUser)
    {
      slots := new ConnState[K_MAX](_ => ConnState(0, 0, false));
      nextFree := new nat[K_MAX](i => if 1 <= i < K_MAX - 1 then i + 1 else 0);
      activeByUser := new nat[MAX_USERS](_ => 0);
      freeTop, freeSize := 1, K_MAX - 1;
      free := seq(K_MAX - 1, i => i + 1);
      new;
      forall id: nat | 1 <= id < K_MAX ensures id in free {
        assert free[id - 1] == id;
      }
      assert Active() == seq(K_MAX, _ => false);
    }

    /** An inactive id, now active for the user, or 0 exactly when every id is active. */
    method Assign(user: nat) returns (id: nat)
      requires Valid()
      modifies this, slots, activeByUser
      ensures Valid()
      ensures id == 0 <==> forall i :: 1 <= i < K_MAX ==> old(slots[..])[i].isActive
      ensures id == 0 ==> View() == old(View()) && freeSize == old(freeSize)
      ensures id != 0 ==> freeSize == old(freeSize) - 1
      ensures id != 0 ==> Suits(old(View()), Opened(user, id)) && View() == Applied(old(View()), Opened(user, id))
      ensures old(View()).AllFound() ==> View().AllFound()
    {
      hide FreeList;
      id := freeTop;
      NoneFree(nextFree[..], freeTop, freeSize, Active(), free);
      if id == 0 {
        forall i | 1 <= i < K_MAX ensures slots[..][i].isActive {
          assert Active()[i];
        }
        return;
      }
      PopKeeps(nextFree[..], freeTop, freeSize, Active(), free);
      ghost var was := Active();
      freeTop := nextFree[id];
      freeSize := freeSize - 1;
      free := free[1..];
      slots[id] := ConnState(user, 0, true);
      activeByUser[SlotOf(user)] := id;
      assert Active() == was[id := true];
      if old(View()).AllFound() {
        AppliedFound(old(View()), Opened(user, id));
      }
    }

    /** Gives an active id back; anything that is no id is ignored. */
    method Release(connId: nat)
      requires Valid() && (IsId(connId) ==> slots[connId].isActive)
      modifies this, slots, nextFree, activeByUser
      ensures Valid()
      ensures !IsId(connId) ==> View() == old(View()) && freeSize == old(freeSize)
      ensures IsId(connId) ==> freeSize == old(freeSize) + 1 && View() == Applied(old(View()), Closed(connId))
      ensures IsId(connId) && old(View()).AllFound() ==> (View().AllFound() <==> old(View()).Alone(connId))
    {
      if connId == 0 || connId >= K_MAX {
        return;
      }
      hide FreeList;
      PushKeeps(nextFree[..], freeTop, freeSize, Active(), free, connId);
      ghost var was := Active();
      slots[connId] := slots[connId].(isActive := false);
      activeByUser[SlotOf(slots[connId].user)] := 0;
      ghost var links := nextFree[..];
      nextFree[connId] := freeTop;
      freeTop := connId;
      freeSize := freeSize + 1;
      free := [connId] + free;
      assert Active() == was[connId := false];
      assert nextFree[..] == links[connId := old(freeTop)];
      if old(View()).AllFound() {
        AppliedFound(old(View()), Closed(connId));
      }
    }

    /** The user slot's connection: if there is one, it is active and belongs to that slot. */
    method FindByUser(user: nat) returns (id: nat)
      requires Valid()
      ensures id != 0 ==> IsId(id) && slots[id].isActive && SlotOf(slots[id].user) == SlotOf(user)
      ensures id == activeByUser[SlotOf(user)]
    {
      id := activeByUser[SlotOf(user)];
    }
  }
}
