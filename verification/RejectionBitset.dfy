/**
 The rejection bitset: 64 words of 64 bits, addressed modulo 4096 by sequence number. Within one window
 of 4096 sequences it is a set.
 */
module RejectionBitsets {
  const WORDS: nat := 64
  const WINDOW: nat := 4096

  /** One shifted left n places. */
  function Mask(n: nat): bv64 {
    if n == 0 then 1 else Mask(n - 1) << 1
  }

  lemma {:induction false} MaskGone(n: nat, m: nat)
    requires n <= m && Mask(n) == 0
    ensures Mask(m) == 0
  {
    if n < m {
      MaskGone(n, m - 1);
    }
  }

  lemma ShiftTwice(x: bv64)
    ensures (x << 1) << 1 == x << 2
    ensures (x << 2) << 2 == x << 4
    ensures (x << 4) << 4 == x << 8
  {
  }

  lemma MaskTwo(n: nat)
    ensures Mask(n + 2) == Mask(n) << 2
  {
    assert Mask(n + 2) == Mask(n + 1) << 1;
    ShiftTwice(Mask(n));
  }

  lemma MaskFour(n: nat)
    ensures Mask(n + 4) == Mask(n) << 4
  {
    MaskTwo(n);
    MaskTwo(n + 2);
    ShiftTwice(Mask(n));
  }

  lemma MaskEight(n: nat)
    ensures Mask(n + 8) == Mask(n) << 8
  {
    MaskFour(n);
    MaskFour(n + 4);
    ShiftTwice(Mask(n));
  }

  lemma MaskTop()
    ensures Mask(63) == 0x8000_0000_0000_0000
  {
    hide Mask;
    assert Mask(0) == 1 by {
      MaskZero();
    }
    MaskEight(0);
    MaskEight(8);
    MaskEight(16);
    MaskEight(24);
    MaskEight(32);
    MaskEight(40);
    MaskEight(48);
    MaskFour(56);
    MaskTwo(60);
    MaskOne(62);
  }

  lemma MaskZero()
    ensures Mask(0) == 1
  {
  }

  lemma MaskOne(n: nat)
    ensures Mask(n + 1) == Mask(n) << 1
  {
  }

  lemma MaskNonzero(n: nat)
    requires n < 64
    ensures Mask(n) != 0
  {
    MaskTop();
    if Mask(n) == 0 {
      MaskGone(n, 63);
    }
  }

  function Or(w: bv64, m: bv64): bv64 {
    w | m
  }

  function And(w: bv64, m: bv64): bv64 {
    w & m
  }

  function AndNot(w: bv64, m: bv64): bv64 {
    w & !m
  }

  lemma OrSame(w: bv64, m: bv64)
    ensures And(Or(w, m), m) == m
  {
  }

  lemma OrOther(w: bv64, m: bv64, n: bv64)
    requires And(m, n) == 0
    ensures And(Or(w, m), n) == And(w, n)
  {
    Distributes(w, m, n);
    OrNothing(w & n);
  }

  lemma Distributes(w: bv64, m: bv64, n: bv64)
    ensures (w | m) & n == (w & n) | (m & n)
  {
  }

  lemma OrNothing(w: bv64)
    ensures w | 0 == w
  {
  }

  lemma ClearSame(w: bv64, m: bv64)
    ensures And(AndNot(w, m), m) == 0
  {
  }

  lemma ClearOther(w: bv64, m: bv64, n: bv64)
    requires And(m, n) == 0
    ensures And(AndNot(w, m), n) == And(w, n)
  {
  }

  lemma Swapped(m: bv64, n: bv64)
    ensures And(m, n) == And(n, m)
  {
  }

  lemma ShiftApart(x: bv64, y: bv64)
    ensures x & y == 0 ==> (x << 1) & (y << 1) == 0
    ensures 1 & (y << 1) == 0
  {
  }

  lemma {:induction false} MasksApart(i: nat, j: nat)
    requires i < j
    ensures And(Mask(i), Mask(j)) == 0
  {
    if i == 0 {
      ShiftApart(0, Mask(j - 1));
    } else {
      MasksApart(i - 1, j - 1);
      ShiftApart(Mask(i - 1), Mask(j - 1));
    }
  }

  predicate HasBit(w: bv64, i: nat) {
    And(w, Mask(i)) != 0
  }

  /** Setting and clearing bit i of a word changes no other bit. */
  lemma BitEdits(w: bv64, i: nat, j: nat)
    requires i < 64 && j < 64
    ensures HasBit(Or(w, Mask(i)), j) <==> i == j || HasBit(w, j)
    ensures HasBit(AndNot(w, Mask(i)), j) <==> i != j && HasBit(w, j)
  {
    hide Mask, Or, And, AndNot;
    MaskNonzero(i);
    if i == j {
      OrSame(w, Mask(i));
      ClearSame(w, Mask(i));
    } else {
      if i < j {
        MasksApart(i, j);
      } else {
        MasksApart(j, i);
        Swapped(Mask(i), Mask(j));
      }
      OrOther(w, Mask(i), Mask(j));
      ClearOther(w, Mask(i), Mask(j));
    }
  }

  // ----- addresses

  function WordOf(seqNo: nat): (i: nat)
    requires seqNo >= 1
    ensures i < WORDS
  {
    (seqNo - 1) / 64 % WORDS
  }

  function BitOf(seqNo: nat): (i: nat)
    requires seqNo >= 1
    ensures i < 64
  {
    (seqNo - 1) % 64
  }

  lemma WordAndBit(z: nat)
    ensures z / 64 % WORDS * 64 + z % 64 == z % WINDOW
  {
    var q := z / 64;
    assert z == 64 * q + z % 64;
    assert q == 64 * (q / 64) + q % 64;
  }

  /** Two sequences share a bit exactly when they are a multiple of the window apart. */
  lemma SameAddress(s: nat, t: nat)
    requires 1 <= s <= t
    ensures (WordOf(s) == WordOf(t) && BitOf(s) == BitOf(t)) <==> (t - s) % WINDOW == 0
  {
    WordAndBit(s - 1);
    WordAndBit(t - 1);
    Congruent(s - 1, t - 1);
  }

  lemma Congruent(a: nat, b: nat)
    requires a <= b
    ensures a % WINDOW == b % WINDOW <==> (b - a) % WINDOW == 0
  {
    var q, r := a / WINDOW, a % WINDOW;
    var q', r' := b / WINDOW, b % WINDOW;
    assert b - a == WINDOW * (q' - q) + (r' - r);
    if (b - a) % WINDOW == 0 {
      SmallMultiple((b - a) / WINDOW - (q' - q), r' - r);
    }
  }

  lemma SmallMultiple(n: int, r: int)
    requires WINDOW * n == r && -r < WINDOW && r < WINDOW
    ensures r == 0
  {
  }

  // ----- the set within the window

  predicate IsSet(words: seq<bv64>, seqNo: nat)
    requires |words| == WORDS && seqNo >= 1
  {
    HasBit(words[WordOf(seqNo)], BitOf(seqNo))
  }

  /** Within the window that begins at next, the bits are exactly the marked sequences. */
  ghost predicate Represents(words: seq<bv64>, marked: set<nat>, next: nat) {
    && |words| == WORDS && next >= 1
    && (forall s :: s in marked ==> next <= s < next + WINDOW)
    && (forall s: nat {:trigger IsSet(words, s)} :: next <= s < next + WINDOW ==> (IsSet(words, s) <==> s in marked))
  }

  function Marked(words: seq<bv64>, seqNo: nat): seq<bv64>
    requires |words| == WORDS && seqNo >= 1
  {
    words[WordOf(seqNo) := Or(words[WordOf(seqNo)], Mask(BitOf(seqNo)))]
  }

  function Unmarked(words: seq<bv64>, seqNo: nat): seq<bv64>
    requires |words| == WORDS && seqNo >= 1
  {
    words[WordOf(seqNo) := AndNot(words[WordOf(seqNo)], Mask(BitOf(seqNo)))]
  }

  lemma EditedBit(words: seq<bv64>, s: nat, t: nat)
    requires |words| == WORDS && s >= 1 && t >= 1
    ensures var same := WordOf(s) == WordOf(t) && BitOf(s) == BitOf(t);
      && (IsSet(Marked(words, s), t) <==> same || IsSet(words, t))
      && (IsSet(Unmarked(words, s), t) <==> !same && IsSet(words, t))
  {
    hide Mask, HasBit, Or, AndNot, WordOf, BitOf;
    if WordOf(s) == WordOf(t) {
      BitEdits(words[WordOf(s)], BitOf(s), BitOf(t));
    }
  }

  /** Inside one window no two sequences share a bit. */
  lemma WindowApart(next: nat, s: nat, t: nat)
    requires next >= 1 && next <= s < next + WINDOW && next <= t < next + WINDOW
    ensures (WordOf(s) == WordOf(t) && BitOf(s) == BitOf(t)) <==> s == t
  {
    if s <= t {
      SameAddress(s, t);
    } else {
      SameAddress(t, s);
    }
  }

  lemma MarkRepresents(words: seq<bv64>, marked: set<nat>, next: nat, s: nat)
    requires Represents(words, marked, next) && next <= s < next + WINDOW
    ensures Represents(Marked(words, s), marked + {s}, next)
  {
    hide IsSet, Marked, WordOf, BitOf;
    MarkedLength(words, s);
    forall t: nat | next <= t < next + WINDOW ensures IsSet(Marked(words, s), t) <==> t in marked + {s} {
      EditedBit(words, s, t);
      WindowApart(next, s, t);
    }
  }

  lemma MarkedLength(words: seq<bv64>, s: nat)
    requires |words| == WORDS && s >= 1
    ensures |Marked(words, s)| == |Unmarked(words, s)| == WORDS
  {
  }

  lemma UnmarkRepresents(words: seq<bv64>, marked: set<nat>, next: nat, s: nat)
    requires Represents(words, marked, next) && next <= s < next + WINDOW
    ensures Represents(Unmarked(words, s), marked - {s}, next)
  {
    hide IsSet, Unmarked, WordOf, BitOf;
    MarkedLength(words, s);
    forall t: nat | next <= t < next + WINDOW ensures IsSet(Unmarked(words, s), t) <==> t in marked - {s} {
      EditedBit(words, s, t);
      WindowApart(next, s, t);
    }
  }

  /** Once next itself is not marked, the window may slide: the sequence that enters takes over a clear bit. */
  lemma SlideRepresents(words: seq<bv64>, marked: set<nat>, next: nat)
    requires Represents(words, marked, next) && next !in marked
    ensures Represents(words, marked, next + 1)
  {
    SameAddress(next, next + WINDOW);
    assert !IsSet(words, next);
    assert IsSet(words, next + WINDOW) <==> IsSet(words, next);
    forall t: nat | next + 1 <= t < next + 1 + WINDOW ensures IsSet(words, t) <==> t in marked {
      if t < next + WINDOW {
        assert next <= t < next + WINDOW;
      }
    }
  }

  /** Outside it the bitset cannot tell: a mark for a sequence a whole window ahead is taken for this one. */
  lemma BeyondWindow(words: seq<bv64>, s: nat, n: nat)
    requires |words| == WORDS && s >= 1
    ensures IsSet(Marked(words, s + n * WINDOW), s)
  {
    Multiple(n);
    SameAddress(s, s + n * WINDOW);
    EditedBit(words, s + n * WINDOW, s);
  }

  lemma {:induction false} Multiple(n: nat)
    ensures n * WINDOW % WINDOW == 0 && n * WINDOW >= 0
  {
    if n > 0 {
      Multiple(n - 1);
      assert n * WINDOW == (n - 1) * WINDOW + WINDOW;
    }
  }

  class RejectionBitset {
    const words: array<bv64>
    ghost var marked: set<nat>  // marked and not yet consumed
    ghost var next: nat         // the first sequence still expected

    ghost predicate Valid()
      reads this, words
    {
      words.Length == WORDS && Represents(words[..], marked, next)
    }

    constructor ()
      ensures Valid() && marked == {} && next == 1 && fresh(words)
    {
      words := new bv64[WORDS](_ => 0);
      marked, next := {}, 1;
      new;
      assert forall i :: 0 <= i < WORDS ==> words[..][i] == 0;
      forall s: nat | 1 <= s < 1 + WINDOW ensures !IsSet(words[..], s) {
        ZeroAnd(Mask(BitOf(s)));
      }
    }

    method MarkRejected(seqNo: nat)
      requires Valid() && next <= seqNo < next + WINDOW
      modifies words, this`marked
      ensures Valid() && marked == old(marked) + {seqNo}
      ensures words[..] == Marked(old(words[..]), seqNo)
    {
      hide Mask, Or, And, IsSet;
      MarkRepresents(words[..], marked, next, seqNo);
      var i := WordOf(seqNo);
      words[i] := Or(words[i], Mask(BitOf(seqNo)));
      marked := marked + {seqNo};
      assert words[..] == Marked(old(words[..]), seqNo);
    }

    /** True exactly when the expected sequence was marked; it is consumed then, and no other is touched. */
    method TryConsumeRejected(expected: nat) returns (ok: bool)
      requires Valid() && expected == next
      modifies words, this`marked
      ensures Valid() && (ok <==> expected in old(marked)) && marked == old(marked) - {expected}
      ensures words[..] == if ok then Unmarked(old(words[..]), expected) else old(words[..])
    {
      hide Mask, Or, And, AndNot;
      var i := WordOf(expected);
      assert IsSet(words[..], expected) <==> expected in marked;
      if And(words[i], Mask(BitOf(expected))) == 0 {
        return false;
      }
      UnmarkRepresents(words[..], marked, next, expected);
      words[i] := AndNot(words[i], Mask(BitOf(expected)));
      marked := marked - {expected};
      assert words[..] == Unmarked(old(words[..]), expected);
      ok := true;
    }
  }

  lemma ZeroAnd(m: bv64)
    ensures And(0, m) == 0
  {
  }
}
