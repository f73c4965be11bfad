/**
 The ordered price index of one side. A price is stored under its eight big-endian bytes, so the
 radix tree's lexicographic extremes are the numerically lowest and highest price.
 */
module RadixTree {
  import opened CoreTypes
  import opened PriceLevels

  /** The n low-order bytes of p, most significant first. */
  function Encode(p: int, n: nat): seq<int>
    requires p >= 0
  {
    if n == 0 then [] else Encode(p / 256, n - 1) + [p % 256]
  }

  function Decode(k: seq<int>): int {
    if k == [] then 0 else 256 * Decode(k[..|k| - 1]) + k[|k| - 1]
  }

  predicate Bytes(k: seq<int>) {
    forall i :: 0 <= i < |k| ==> 0 <= k[i] < 256
  }

  function Pow256(n: nat): int {
    if n == 0 then 1 else 256 * Pow256(n - 1)
  }

  /** The tree's own key order: the first differing byte decides. */
  predicate LexLess(a: seq<int>, b: seq<int>) {
    a != [] && b != [] && (a[0] < b[0] || (a[0] == b[0] && LexLess(a[1..], b[1..])))
  }

  lemma {:induction false} DecodeEncode(p: int, n: nat)
    requires 0 <= p < Pow256(n)
    ensures |Encode(p, n)| == n && Bytes(Encode(p, n)) && Decode(Encode(p, n)) == p
  {
    if n != 0 {
      DecodeEncode(p / 256, n - 1);
      assert Encode(p, n)[..n - 1] == Encode(p / 256, n - 1);
    }
  }

  lemma {:induction false} EncodeDecode(k: seq<int>)
    requires Bytes(k)
    ensures 0 <= Decode(k) < Pow256(|k|) && Encode(Decode(k), |k|) == k
  {
    if k != [] {
      var init, last := k[..|k| - 1], k[|k| - 1];
      EncodeDecode(init);
      assert Decode(k) / 256 == Decode(init) && Decode(k) % 256 == last;
      assert init + [last] == k;
    }
  }

  /** p shifted right by n whole bytes. */
  function ShiftBytes(p: int, n: nat): int
    requires p >= 0
  {
    if n == 0 then p else ShiftBytes(p / 256, n - 1)
  }

  /** The i-th key byte is what shifting right by whole bytes and masking yields. */
  lemma {:induction false} EncodeAt(p: int, n: nat, i: nat)
    requires 0 <= p && i < n
    ensures |Encode(p, n)| == n && Encode(p, n)[i] == ShiftBytes(p, n - 1 - i) % 256
  {
    EncodeLength(p, n);
    EncodeLength(p / 256, n - 1);
    if i < n - 1 {
      EncodeAt(p / 256, n - 1, i);
    }
  }

  lemma {:induction false} EncodeLength(p: int, n: nat)
    requires 0 <= p
    ensures |Encode(p, n)| == n
  {
    if n != 0 {
      EncodeLength(p / 256, n - 1);
    }
  }

  /** Lexicographic order on keys is numeric order on prices. */
  lemma {:induction false} LexIsNumeric(a: seq<int>, b: seq<int>)
    requires |a| == |b| && Bytes(a) && Bytes(b)
    ensures LexLess(a, b) <==> Decode(a) < Decode(b)
  {
    if a != [] {
      LexIsNumeric(a[1..], b[1..]);
      DecodeFront(a);
      DecodeFront(b);
      EncodeDecode(a[1..]);
      EncodeDecode(b[1..]);
      Digits(a[0], Decode(a[1..]), b[0], Decode(b[1..]), Pow256(|a| - 1));
    }
  }

  lemma Digits(x: int, u: int, y: int, v: int, w: int)
    requires 0 <= u < w && 0 <= v < w
    ensures x * w + u < y * w + v <==> x < y || (x == y && u < v)
  {
    if x < y {
      AtLeastOnce(y - x, w);
    } else if x > y {
      AtLeastOnce(x - y, w);
    }
  }

  lemma AtLeastOnce(d: int, w: int)
    requires d >= 1 && w > 0
    ensures d * w >= w
  {
    assert d * w == w + (d - 1) * w;
  }

  lemma {:induction false} DecodeFront(k: seq<int>)
    requires k != []
    ensures Decode(k) == k[0] * Pow256(|k| - 1) + Decode(k[1..])
  {
    var n := |k| - 1;
    if n != 0 {
      DecodeFront(k[..n]);
      assert k[..n][1..] == k[1..][..n - 1] && k[..n][0] == k[0];
      assert Decode(k[1..]) == 256 * Decode(k[1..][..n - 1]) + k[n];
      assert 256 * (k[0] * Pow256(n - 1)) == k[0] * Pow256(n);
    }
  }

  lemma {:induction false} LexTotal(a: seq<int>, b: seq<int>)
    requires |a| == |b|
    ensures a == b || LexLess(a, b) || LexLess(b, a)
  {
    if a != [] {
      LexTotal(a[1..], b[1..]);
      assert a == [a[0]] + a[1..] && b == [b[0]] + b[1..];
    }
  }

  /** Fills the n key bytes by shifting and masking. */
  method MakeKey(price: int, n: nat) returns (key: seq<int>)
    requires 0 <= price
    ensures key == Encode(price, n)
  {
    var bytes := new int[n];
    EncodeLength(price, n);
    for i := 0 to n
      invariant forall j :: 0 <= j < i ==> bytes[j] == Encode(price, n)[j]
    {
      EncodeAt(price, n, i);
      bytes[i] := ShiftBytes(price, n - 1 - i) % 256;
    }
    key := bytes[..];
  }

  ghost predicate Stored<T>(leaves: map<seq<int>, T>, n: nat, p: int, x: T) {
    && 0 <= p < Pow256(n)
    && Encode(p, n) in leaves
    && leaves[Encode(p, n)] == x
  }

  ghost predicate KeyOfSome<T>(k: seq<int>, levels: map<int, T>, n: nat) {
    |k| == n && Bytes(k) && Decode(k) in levels
  }

  /** leaves holds each price of levels once, under its key of n bytes. */
  ghost predicate Indexes<T>(leaves: map<seq<int>, T>, levels: map<int, T>, n: nat) {
    && (forall p {:trigger Stored(leaves, n, p, levels[p])} :: p in levels ==> Stored(leaves, n, p, levels[p]))
    && (forall k {:trigger KeyOfSome(k, levels, n)} :: k in leaves ==> KeyOfSome(k, levels, n))
  }

  lemma IndexesInsert<T>(leaves: map<seq<int>, T>, levels: map<int, T>, n: nat, p: int, x: T)
    requires Indexes(leaves, levels, n) && 0 <= p < Pow256(n)
    ensures Indexes(leaves[Encode(p, n) := x], levels[p := x], n)
    ensures Encode(p, n) in leaves <==> p in levels
  {
    var key := Encode(p, n);
    var leaves', levels' := leaves[key := x], levels[p := x];
    DecodeEncode(p, n);
    forall q | q in levels' ensures Stored(leaves', n, q, levels'[q]) {
      if q != p {
        assert Stored(leaves, n, q, levels[q]);
        DecodeEncode(q, n);
      }
    }
    forall k | k in leaves' ensures KeyOfSome(k, levels', n) {
      assert k != key ==> KeyOfSome(k, levels, n);
    }
    assert key in leaves ==> KeyOfSome(key, levels, n);
    assert p in levels ==> Stored(leaves, n, p, levels[p]);
  }

  lemma IndexesErase<T>(leaves: map<seq<int>, T>, levels: map<int, T>, n: nat, p: int)
    requires Indexes(leaves, levels, n) && 0 <= p < Pow256(n)
    ensures Indexes(leaves - {Encode(p, n)}, levels - {p}, n)
  {
    var key := Encode(p, n);
    var leaves', levels' := leaves - {key}, levels - {p};
    DecodeEncode(p, n);
    forall q | q in levels' ensures Stored(leaves', n, q, levels'[q]) {
      assert Stored(leaves, n, q, levels[q]);
      DecodeEncode(q, n);
    }
    forall k | k in leaves' ensures KeyOfSome(k, levels', n) {
      assert KeyOfSome(k, levels, n);
      EncodeDecode(k);
    }
  }

  lemma IndexesLookup<T>(leaves: map<seq<int>, T>, levels: map<int, T>, n: nat, p: int)
    requires Indexes(leaves, levels, n) && 0 <= p < Pow256(n)
    ensures Encode(p, n) in leaves <==> p in levels
    ensures p in levels ==> leaves[Encode(p, n)] == levels[p]
    ensures leaves == map[] <==> levels == map[]
  {
    var key := Encode(p, n);
    DecodeEncode(p, n);
    assert key in leaves ==> KeyOfSome(key, levels, n);
    assert p in levels ==> Stored(leaves, n, p, levels[p]);
    if leaves != map[] {
      var k :| k in leaves;
      assert KeyOfSome(k, levels, n);
    }
    forall q | q in levels ensures leaves != map[] {
      assert Stored(leaves, n, q, levels[q]);
    }
  }

  predicate IsExtreme(keys: set<seq<int>>, leaf: seq<int>, greatest: bool) {
    leaf in keys && forall k | k in keys :: k == leaf || if greatest then LexLess(k, leaf) else LexLess(leaf, k)
  }

  /** The price decoded from the lexicographically extreme leaf is the numerically extreme price. */
  lemma ExtremeLeaf<T>(leaves: map<seq<int>, T>, levels: map<int, T>, n: nat, leaf: seq<int>, greatest: bool)
    requires Indexes(leaves, levels, n) && IsExtreme(leaves.Keys, leaf, greatest)
    ensures Decode(leaf) in levels
    ensures forall p :: p in levels ==> if greatest then p <= Decode(leaf) else Decode(leaf) <= p
  {
    assert KeyOfSome(leaf, levels, n);
    forall p | p in levels ensures if greatest then p <= Decode(leaf) else Decode(leaf) <= p {
      assert Stored(leaves, n, p, levels[p]);
      var k := Encode(p, n);
      DecodeEncode(p, n);
      assert KeyOfSome(k, levels, n);
      if k != leaf {
        LexIsNumeric(k, leaf);
        LexIsNumeric(leaf, k);
      }
    }
  }

  class AdaptiveRadixTree {
    const width: nat  // the key length, eight bytes
    var leaves: map<seq<int>, nat>
    ghost var levels: map<int, nat>

    ghost predicate Valid()
      reads this
    {
      Pow256(width) == U64 && Indexes(leaves, levels, width)
    }

    constructor ()
      ensures Valid() && levels == map[]
    {
      width, leaves, levels := 8, map[], map[];
      assert Pow256(8) == 256 * 256 * 256 * 256 * Pow256(4) == U64;
    }

    /** A duplicate price overwrites the leaf and is then reported. */
    method Insert(price: int, level: nat) returns (ok: bool)
      requires Valid() && 0 <= price < U64
      modifies this
      ensures Valid()
      ensures levels == old(levels)[price := level]
      ensures ok <==> price !in old(levels)
    {
      var key := MakeKey(price, width);
      IndexesInsert(leaves, levels, width, price, level);
      ok := key !in leaves;
      leaves := leaves[key := level];
      levels := levels[price := level];
    }

    method Find(price: int) returns (r: int)
      requires Valid() && 0 <= price < U64
      ensures r == if price in levels then levels[price] else NIL
    {
      var key := MakeKey(price, width);
      IndexesLookup(leaves, levels, width, price);
      r := if key in leaves then leaves[key] else NIL;
    }

    method Erase(price: int) returns (r: int)
      requires Valid() && 0 <= price < U64
      modifies this
      ensures Valid()
      ensures levels == old(levels) - {price}
      ensures r == if price in old(levels) then old(levels)[price] else NIL
    {
      r := Find(price);
      var key := MakeKey(price, width);
      IndexesErase(leaves, levels, width, price);
      leaves := leaves - {key};
      levels := levels - {price};
    }

    /** Zero for an empty tree, else the numerically greatest price. */
    method MaxPrice() returns (price: int)
      requires Valid()
      ensures levels == map[] ==> price == 0
      ensures levels != map[] ==> price in levels && forall p :: p in levels ==> p <= price
    {
      price := Extreme(true);
    }

    /** Zero for an empty tree, else the numerically least price. */
    method MinPrice() returns (price: int)
      requires Valid()
      ensures levels == map[] ==> price == 0
      ensures levels != map[] ==> price in levels && forall p :: p in levels ==> price <= p
    {
      price := Extreme(false);
    }

    method Extreme(greatest: bool) returns (price: int)
      requires Valid()
      ensures levels == map[] ==> price == 0
      ensures levels != map[] ==> price in levels
      ensures levels != map[] ==>
                forall p :: p in levels ==> if greatest then p <= price else price <= p
    {
      IndexesLookup(leaves, levels, width, 0);
      if leaves == map[] {
        return 0;
      }
      forall k | k in leaves ensures |k| == width {
        assert KeyOfSome(k, levels, width);
      }
      ExtremeKey(leaves.Keys, width, greatest);
      var leaf :| leaf in leaves && IsExtreme(leaves.Keys, leaf, greatest);
      price := DecodeLeaf(leaf);
      ExtremeLeaf(leaves, levels, width, leaf, greatest);
    }

    method Empty() returns (r: bool)
      requires Valid()
      ensures r <==> levels == map[]
    {
      IndexesLookup(leaves, levels, width, 0);
      r := leaves == map[];
    }
  }

  method DecodeLeaf(leaf: seq<int>) returns (price: int)
    ensures price == Decode(leaf)
  {
    price := 0;
    for i := 0 to |leaf|
      invariant price == Decode(leaf[..i])
    {
      price := price * 256 + leaf[i];
      assert leaf[..i + 1][..i] == leaf[..i];
    }
    assert leaf[..|leaf|] == leaf;
  }

  lemma {:induction false} LexTransitive(a: seq<int>, b: seq<int>, c: seq<int>)
    requires |a| == |b| == |c| && LexLess(a, b) && LexLess(b, c)
    ensures LexLess(a, c)
  {
    if a[0] == b[0] == c[0] {
      LexTransitive(a[1..], b[1..], c[1..]);
    }
  }

  /** A non-empty finite set of keys has a greatest (or a least) leaf. */
  lemma {:induction false} ExtremeKey(keys: set<seq<int>>, n: nat, greatest: bool)
    requires keys != {} && forall k :: k in keys ==> |k| == n
    ensures exists m :: IsExtreme(keys, m, greatest)
  {
    var x :| x in keys;
    var rest := keys - {x};
    if rest == {} {
      assert keys == {x} && IsExtreme(keys, x, greatest);
    } else {
      ExtremeKey(rest, n, greatest);
      var m :| IsExtreme(rest, m, greatest);
      LexTotal(x, m);
      var top := if LexLess(x, m) == greatest then m else x;
      forall k | k in keys && k != top
        ensures if greatest then LexLess(k, top) else LexLess(top, k)
      {
        if k != x && k != m {
          if greatest && top == x {
            LexTransitive(k, m, x);
          } else if !greatest && top == x {
            LexTransitive(x, m, k);
          }
        }
      }
      assert IsExtreme(keys, top, greatest);
    }
  }
}
