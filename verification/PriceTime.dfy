/**
 One side of the book as the exchange promises it: a single sequence of resting orders,
 best price first and, within a price, oldest first.
 */
module PriceTime {
  import opened CoreTypes

  /** p is at least as good a resting price as q on this side. */
  predicate Ahead(side: Side, p: int, q: int) {
    if side.Buy? then p >= q else p <= q
  }

  ghost predicate Sorted(side: Side, s: seq<OrderRec>) {
    forall i, j :: 0 <= i < j < |s| ==> Ahead(side, s[i].price, s[j].price)
  }

  /** Joins the queue behind every order whose price is at least as good. */
  function Place(s: seq<OrderRec>, r: OrderRec): seq<OrderRec> {
    if s == [] || !Ahead(r.side, s[0].price, r.price) then [r] + s
    else [s[0]] + Place(s[1..], r)
  }

  function RemoveId(s: seq<OrderRec>, id: nat): seq<OrderRec> {
    if s == [] then []
    else if s[0].id == id then RemoveId(s[1..], id)
    else [s[0]] + RemoveId(s[1..], id)
  }

  /** Overwrites in place the order that has r's id. */
  function ReplaceId(s: seq<OrderRec>, r: OrderRec): seq<OrderRec> {
    if s == [] then []
    else [if s[0].id == r.id then r else s[0]] + ReplaceId(s[1..], r)
  }

  /** The orders resting at one price, oldest first. */
  function AtPrice(s: seq<OrderRec>, p: int): seq<OrderRec> {
    if s == [] then []
    else if s[0].price == p then [s[0]] + AtPrice(s[1..], p)
    else AtPrice(s[1..], p)
  }

  /** Total unfilled quantity. */
  function Open(s: seq<OrderRec>): int {
    if s == [] then 0 else s[0].rem + Open(s[1..])
  }

  predicate HasId(s: seq<OrderRec>, id: nat) {
    exists i :: 0 <= i < |s| && s[i].id == id
  }

  ghost predicate UniqueIds(s: seq<OrderRec>) {
    forall i, j :: 0 <= i < j < |s| ==> s[i].id != s[j].id
  }

  // ----- how each edit of the whole side looks from one price level

  lemma {:induction false} PlaceAtPrice(s: seq<OrderRec>, r: OrderRec, p: int)
    requires Sorted(r.side, s)
    ensures AtPrice(Place(s, r), p) == AtPrice(s, p) + (if r.price == p then [r] else [])
  {
    if s == [] {
    } else if !Ahead(r.side, s[0].price, r.price) {
      if r.price == p {
        NoneAtPrice(s, p);
      }
    } else {
      PlaceAtPrice(s[1..], r, p);
      assert Place(s, r)[1..] == Place(s[1..], r);
    }
  }

  lemma {:induction false} NoneAtPrice(s: seq<OrderRec>, p: int)
    requires forall i :: 0 <= i < |s| ==> s[i].price != p
    ensures AtPrice(s, p) == []
  {
    if s != [] {
      NoneAtPrice(s[1..], p);
    }
  }

  lemma {:induction false} RemoveAtPrice(s: seq<OrderRec>, id: nat, p: int)
    ensures AtPrice(RemoveId(s, id), p) == RemoveId(AtPrice(s, p), id)
  {
    if s != [] {
      RemoveAtPrice(s[1..], id, p);
      if s[0].id != id {
        assert RemoveId(s, id)[1..] == RemoveId(s[1..], id);
      }
    }
  }

  lemma {:induction false} ReplaceAtPrice(s: seq<OrderRec>, r: OrderRec, p: int)
    requires forall i :: 0 <= i < |s| && s[i].id == r.id ==> s[i].price == r.price
    ensures AtPrice(ReplaceId(s, r), p) == ReplaceId(AtPrice(s, p), r)
  {
    if s != [] {
      ReplaceAtPrice(s[1..], r, p);
      assert ReplaceId(s, r)[1..] == ReplaceId(s[1..], r);
    }
  }

  lemma {:induction false} PlaceSorted(s: seq<OrderRec>, r: OrderRec)
    requires Sorted(r.side, s)
    ensures Sorted(r.side, Place(s, r)) && |Place(s, r)| == |s| + 1
    ensures forall i :: 0 <= i < |s| + 1 ==> Place(s, r)[i] == r || Place(s, r)[i] in s
  {
    if s != [] && Ahead(r.side, s[0].price, r.price) {
      PlaceSorted(s[1..], r);
    }
  }

  lemma {:induction false} RemoveSorted(side: Side, s: seq<OrderRec>, id: nat)
    requires Sorted(side, s)
    ensures Sorted(side, RemoveId(s, id))
    ensures forall r :: r in RemoveId(s, id) ==> r in s && r.id != id
  {
    if s != [] {
      RemoveSorted(side, s[1..], id);
    }
  }

  lemma {:induction false} ReplaceShape(s: seq<OrderRec>, r: OrderRec)
    ensures |ReplaceId(s, r)| == |s|
    ensures forall i :: 0 <= i < |s| ==> ReplaceId(s, r)[i] == if s[i].id == r.id then r else s[i]
  {
    if s != [] {
      ReplaceShape(s[1..], r);
    }
  }

  /** With the id unique at k, removing it cuts out exactly position k. */
  lemma {:induction false} RemoveAt(s: seq<OrderRec>, k: nat)
    requires k < |s| && forall i :: 0 <= i < |s| && i != k ==> s[i].id != s[k].id
    ensures RemoveId(s, s[k].id) == s[..k] + s[k + 1..]
  {
    if k == 0 {
      RemoveAbsent(s[1..], s[0].id);
    } else {
      RemoveAt(s[1..], k - 1);
      assert s[..k] == [s[0]] + s[1..][..k - 1];
    }
  }

  lemma {:induction false} RemoveAbsent(s: seq<OrderRec>, id: nat)
    requires forall i :: 0 <= i < |s| ==> s[i].id != id
    ensures RemoveId(s, id) == s
  {
    if s != [] {
      RemoveAbsent(s[1..], id);
    }
  }

  lemma {:induction false} AtPriceMember(s: seq<OrderRec>, p: int, i: nat)
    requires i < |s| && s[i].price == p
    ensures s[i] in AtPrice(s, p)
  {
    if i > 0 {
      AtPriceMember(s[1..], p, i - 1);
    }
  }

  lemma {:induction false} AtPriceFrom(s: seq<OrderRec>, p: int, r: OrderRec)
    requires r in AtPrice(s, p)
    ensures r in s && r.price == p
  {
    if s[0].price != p || r != s[0] {
      AtPriceFrom(s[1..], p, r);
    }
  }

  /** The order at the front of a side is the front of its own level. */
  lemma HeadOfLevel(s: seq<OrderRec>)
    requires s != []
    ensures AtPrice(s, s[0].price) != [] && AtPrice(s, s[0].price)[0] == s[0]
  {
  }

  lemma {:induction false} OpenAppend(s: seq<OrderRec>, t: seq<OrderRec>)
    ensures Open(s + t) == Open(s) + Open(t)
  {
    if s == [] {
      assert s + t == t;
    } else {
      OpenAppend(s[1..], t);
      assert (s + t)[1..] == s[1..] + t;
    }
  }

  lemma OpenCut(s: seq<OrderRec>, k: nat)
    requires k < |s|
    ensures Open(s) == Open(s[..k] + s[k + 1..]) + s[k].rem
  {
    OpenAppend(s[..k], s[k..]);
    OpenAppend(s[..k], s[k + 1..]);
    assert s == s[..k] + s[k..];
  }

  lemma {:induction false} AtPriceUnique(s: seq<OrderRec>, p: int)
    requires UniqueIds(s)
    ensures UniqueIds(AtPrice(s, p))
  {
    if s != [] {
      AtPriceUnique(s[1..], p);
      forall i | 0 <= i < |AtPrice(s[1..], p)| ensures AtPrice(s[1..], p)[i] in s[1..] {
        AtPriceFrom(s[1..], p, AtPrice(s[1..], p)[i]);
      }
    }
  }

  lemma OpenReplace(s: seq<OrderRec>, k: nat, r: OrderRec)
    requires k < |s|
    ensures Open(s[k := r]) == Open(s) - s[k].rem + r.rem
  {
    OpenCut(s, k);
    OpenCut(s[k := r], k);
    assert s[k := r][..k] + s[k := r][k + 1..] == s[..k] + s[k + 1..];
  }

  lemma {:induction false} PlaceUnique(s: seq<OrderRec>, r: OrderRec)
    requires UniqueIds(s) && forall i :: 0 <= i < |s| ==> s[i].id != r.id
    ensures UniqueIds(Place(s, r))
    ensures forall x :: x in Place(s, r) ==> x == r || x in s
  {
    if s != [] && Ahead(r.side, s[0].price, r.price) {
      PlaceUnique(s[1..], r);
      var t := Place(s[1..], r);
      forall i | 0 <= i < |t| ensures t[i].id != s[0].id {
        assert t[i] in t;
      }
    }
  }

  lemma {:induction false} RemoveUnique(s: seq<OrderRec>, id: nat)
    requires UniqueIds(s)
    ensures UniqueIds(RemoveId(s, id))
    ensures forall x :: x in RemoveId(s, id) ==> x in s
  {
    if s != [] {
      RemoveUnique(s[1..], id);
      var t := RemoveId(s[1..], id);
      forall i | 0 <= i < |t| ensures t[i].id != s[0].id {
        assert t[i] in t;
      }
    }
  }

  /** Edits of the front order alone. */
  lemma FrontEdits(s: seq<OrderRec>, r: OrderRec)
    requires s != [] && UniqueIds(s) && r.id == s[0].id
    ensures RemoveId(s, r.id) == s[1..] && ReplaceId(s, r) == [r] + s[1..]
  {
    RemoveAbsent(s[1..], r.id);
    ReplaceAbsent(s[1..], r);
  }

  lemma {:induction false} ReplaceAbsent(s: seq<OrderRec>, r: OrderRec)
    requires forall i :: 0 <= i < |s| ==> s[i].id != r.id
    ensures ReplaceId(s, r) == s
  {
    if s != [] {
      ReplaceAbsent(s[1..], r);
    }
  }
}
