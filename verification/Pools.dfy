/**
 The fixed pools that hold every order and every price level by value. A pointer into a pool is the
 index of its slot; free slots sit on a stack, and a pool never grows.
 */
module Pools {
  import opened CoreTypes

  const MAX_ORDERS: nat := 1000000
  const MIN_REQ_PRICELEVELS: nat := 1000000

  class Pool<T(==)> {
    const blank: T
    var slots: seq<T>
    const freeList: array<nat>
    var top: nat

    /** The free stack names distinct slots of the pool. */
    ghost predicate Valid()
      reads this`top, freeList
    {
      && top <= freeList.Length
      && (forall i :: 0 <= i < top ==> freeList[i] < freeList.Length)
      && (forall i, j :: 0 <= i < j < top ==> freeList[i] != freeList[j])
    }

    ghost function Free(): set<nat>
      requires top <= freeList.Length
      reads this`top, freeList
    {
      set i | i in freeList[..top]
    }

    /** Every slot starts out blank and free. */
    constructor (capacity: nat, blank: T)
      ensures Valid() && fresh(freeList) && this.blank == blank
      ensures |slots| == capacity && forall i :: 0 <= i < capacity ==> slots[i] == blank
      ensures freeList.Length == capacity && Covers(Free(), capacity)
    {
      this.blank := blank;
      slots := seq(capacity, _ => blank);
      freeList := new nat[capacity](i => i);
      top := capacity;
      new;
      forall i: nat ensures i in Free() <==> i < capacity {
        if i < capacity {
          assert freeList[..top][i] == i;
        }
      }
    }

    method Allocate() returns (r: Option<nat>)
      requires Valid()
      modifies this`top
      ensures Valid()
      ensures r.None? <==> old(Free()) == {}
      ensures r.Some? ==> r.value in old(Free()) && r.value < freeList.Length && Free() == old(Free()) - {r.value}
      ensures r.None? ==> Free() == old(Free())
    {
      if top == 0 {
        assert freeList[..top] == [];
        return None;
      }
      assert freeList[top - 1] in freeList[..top] && freeList[top - 1] in Free();
      top := top - 1;
      assert forall i :: 0 <= i < top ==> freeList[i] in Free() && freeList[i] != freeList[top];
      r := Some(freeList[top]);
    }

    /** Blanks the slot and frees it; refused only on a full stack, which takes a double free. */
    method Deallocate(x: nat) returns (ok: bool)
      requires Valid() && x < freeList.Length == |slots| && x !in Free()
      modifies this, freeList
      ensures Valid() && ok
      ensures slots == old(slots)[x := blank]
      ensures Free() == old(Free()) + {x}
    {
      RoomFor(freeList[..top], x, |slots|);
      if top >= freeList.Length {
        return false;
      }
      slots := slots[x := blank];
      freeList[top] := x;
      top := top + 1;
      assert freeList[..top] == old(freeList[..top]) + [x];
      ok := true;
    }
  }

  /** s is exactly the slots of a pool of n. */
  ghost predicate Covers(s: set<nat>, n: nat) {
    forall i: nat :: i in s <==> i < n
  }

  lemma CoversCount(s: set<nat>, n: nat)
    requires Covers(s, n)
    ensures |s| == n
  {
    forall i: nat ensures i in s <==> i in Below(n) {
      BelowMeans(n, i);
    }
    assert s == Below(n);
    BelowMeans(n, 0);
  }

  ghost function Below(n: nat): set<nat> {
    if n == 0 then {} else Below(n - 1) + {n - 1}
  }

  lemma {:induction false} BelowMeans(n: nat, i: nat)
    ensures i in Below(n) <==> i < n
    ensures |Below(n)| == n
  {
    if n != 0 {
      BelowMeans(n - 1, i);
      BelowMeans(n - 1, n - 1);
    }
  }

  /** A value of a map has a key. */
  lemma KeyOf<K>(m: map<K, nat>, y: nat) returns (k: K)
    requires y in m.Values
    ensures k in m && m[k] == y
  {
    if j :| j in m && m[j] == y {
      k := j;
    } else {
      assert false;
    }
  }

  /** A duplicate-free stack of slots below n that misses one slot is not full. */
  lemma RoomFor(s: seq<nat>, x: nat, n: nat)
    requires forall i :: 0 <= i < |s| ==> s[i] < n
    requires forall i, j :: 0 <= i < j < |s| ==> s[i] != s[j]
    requires x < n && x !in s
    ensures |s| < n
  {
    var used := set i | i in s;
    forall i | i in used + {x} ensures i in Below(n) {
      BelowMeans(n, i);
    }
    BelowMeans(n, x);
    DistinctCount(s);
    SubsetCount(used, Below(n) - {x});
  }

  lemma {:induction false} SubsetCount<T>(a: set<T>, b: set<T>)
    requires a <= b
    ensures |a| <= |b|
  {
    if a != {} {
      var x :| x in a;
      SubsetCount(a - {x}, b - {x});
    }
  }

  lemma {:induction false} DistinctCount<T>(s: seq<T>)
    requires forall i, j :: 0 <= i < j < |s| ==> s[i] != s[j]
    ensures |set x | x in s| == |s|
  {
    if s != [] {
      var init := s[..|s| - 1];
      DistinctCount(init);
      assert (set x | x in s) == (set x | x in init) + {s[|s| - 1]};
    }
  }
}
