/**
 SplitMix64: the finalizer every draw and every token bucket goes through, and
 the generator whose draws repeat only when its period is out.

 A word is a number below 2^64; addition and multiplication wrap explicitly, and
 shifts and exclusive-or are defined on binary digits.
 */
module Rng {
  import opened Prelude

  const TWO_64: nat := 0x1_0000_0000_0000_0000

  type Word = w: nat | w < TWO_64

  function WrappingAdd(a: Word, b: Word): Word {
    (a + b) % TWO_64
  }

  function WrappingMul(a: Word, b: Word): Word {
    (a * b) % TWO_64
  }

  /** `a` shifted right by `k` digits. */
  function Shr(a: nat, k: nat): (r: nat)
    ensures r <= a
  {
    if k == 0 then a else Shr(a / 2, k - 1)
  }

  /** Digit by digit, where exactly one of the two has a one. */
  function Xor(a: nat, b: nat): nat {
    if a == 0 && b == 0 then 0
    else (if a % 2 != b % 2 then 1 else 0) + 2 * Xor(a / 2, b / 2)
  }

  function Pow2(n: nat): nat {
    if n == 0 then 1 else 2 * Pow2(n - 1)
  }

  // ----- binary digits

  lemma XorDigits(a: nat, b: nat)
    ensures Xor(a, b) % 2 == (if a % 2 != b % 2 then 1 else 0)
    ensures Xor(a, b) / 2 == Xor(a / 2, b / 2)
  {
  }

  lemma {:induction false} XorCommutes(a: nat, b: nat)
    ensures Xor(a, b) == Xor(b, a)
  {
    if a != 0 || b != 0 {
      XorCommutes(a / 2, b / 2);
    }
  }

  lemma {:induction false} XorAssociates(a: nat, b: nat, c: nat)
    ensures Xor(Xor(a, b), c) == Xor(a, Xor(b, c))
    decreases a + b + c
  {
    if a != 0 || b != 0 || c != 0 {
      XorDigits(a, b);
      XorDigits(b, c);
      XorAssociates(a / 2, b / 2, c / 2);
      XorDigits(Xor(a, b), c);
      XorDigits(a, Xor(b, c));
    }
  }

  lemma {:induction false} XorCancels(a: nat)
    ensures Xor(a, a) == 0 && Xor(a, 0) == a
  {
    if a != 0 {
      XorCancels(a / 2);
    }
  }

  lemma {:induction false} ShrOfXor(a: nat, b: nat, k: nat)
    ensures Shr(Xor(a, b), k) == Xor(Shr(a, k), Shr(b, k))
    decreases k
  {
    if k > 0 {
      XorDigits(a, b);
      ShrOfXor(a / 2, b / 2, k - 1);
    }
  }

  lemma {:induction false} ShrAdds(a: nat, j: nat, k: nat)
    ensures Shr(Shr(a, j), k) == Shr(a, j + k)
    decreases j
  {
    if j > 0 {
      ShrAdds(a / 2, j - 1, k);
    }
  }

  lemma {:induction false} XorStaysBelow(a: nat, b: nat, n: nat)
    requires a < Pow2(n) && b < Pow2(n)
    ensures Xor(a, b) < Pow2(n)
    decreases n
  {
    if n == 0 {
      assert a == 0 && b == 0;
    } else {
      XorDigits(a, b);
      XorStaysBelow(a / 2, b / 2, n - 1);
    }
  }

  lemma {:induction false} ShiftedOut(a: nat, n: nat, k: nat)
    requires a < Pow2(n) && k >= n
    ensures Shr(a, k) == 0
    decreases k
  {
    if k > 0 {
      ShiftedOut(a / 2, if n == 0 then 0 else n - 1, k - 1);
    }
  }

  lemma WordsHave64Digits()
    ensures Pow2(64) == TWO_64
  {
    assert Pow2(8) == 0x100;
    Pow2Adds(8, 8);
    Pow2Adds(16, 16);
    Pow2Adds(32, 32);
  }

  lemma {:induction false} Pow2Adds(a: nat, b: nat)
    ensures Pow2(a + b) == Pow2(a) * Pow2(b)
  {
    if b > 0 {
      Pow2Adds(a, b - 1);
    }
  }

  /** `x ^ (x >> k)`. */
  function Fold(x: Word, k: nat): Word {
    WordsHave64Digits();
    XorStaysBelow(x, Shr(x, k), 64);
    Xor(x, Shr(x, k))
  }

  /** `y ^ (y >> k) ^ (y >> 2k)`. */
  function Unfold(y: Word, k: nat): Word {
    Fold2Fits(y, k);
    Xor(Fold(y, k), Shr(y, 2 * k))
  }

  lemma Fold2Fits(y: Word, k: nat)
    ensures Xor(Fold(y, k), Shr(y, 2 * k)) < TWO_64
  {
    WordsHave64Digits();
    XorStaysBelow(Fold(y, k), Shr(y, 2 * k), 64);
  }

  /** Three terms, each half of a pair but the ends: the middles cancel. */
  lemma Telescopes(a: nat, b: nat, c: nat)
    ensures Xor(Xor(Xor(a, b), Xor(b, c)), c) == a
  {
    XorAssociates(Xor(a, b), b, c);
    XorAssociates(a, b, b);
    XorCancels(b);
    XorCancels(a);
    XorAssociates(a, c, c);
    XorCancels(c);
  }

  /** Folding by more than a third of a word is undone by two more folds. */
  lemma UnfoldUndoesFold(x: Word, k: nat)
    requires 3 * k >= 64
    ensures Unfold(Fold(x, k), k) == x && Fold(Unfold(x, k), k) == x
  {
    WordsHave64Digits();
    var x1, x2, x3 := Shr(x, k), Shr(x, 2 * k), Shr(x, 3 * k);
    ShrAdds(x, k, k);
    ShrAdds(x, k, 2 * k);
    ShrAdds(x, 2 * k, k);
    ShiftedOut(x, 64, 3 * k);
    XorCancels(x2);
    ShrOfXor(x, x1, k);
    ShrOfXor(x, x1, 2 * k);
    Telescopes(x, x1, x2);
    assert Unfold(Fold(x, k), k) == Xor(Xor(Xor(x, x1), Xor(x1, x2)), x2);
    ShrOfXor(Fold(x, k), x2, k);
    UnfoldThenFold(x, x1, x2);
    assert Fold(Unfold(x, k), k) == Xor(Xor(Xor(x, x1), x2), Xor(Xor(x1, x2), 0));
  }

  lemma UnfoldThenFold(a: nat, b: nat, c: nat)
    ensures Xor(Xor(Xor(a, b), c), Xor(Xor(b, c), 0)) == a
  {
    XorCancels(Xor(b, c));
    XorAssociates(a, b, c);
    XorAssociates(a, Xor(b, c), Xor(b, c));
    XorCancels(a);
  }

  // ----- the finalizer

  const MUL1: Word := 0xBF58_476D_1CE4_E5B9
  const MUL2: Word := 0x94D0_49BB_1331_11EB
  const GAMMA: Word := 0x9E37_79B9_7F4A_7C15

  /** The inverses of the odd multipliers modulo 2^64. */
  const OVER1: Word := 0x96DE_1B17_3F11_9089
  const OVER2: Word := 0x3196_42B2_D24D_8EC3
  const OVER_GAMMA: Word := 0xF1DE_83E1_9937_733D

  function Mix(hash: Word): Word {
    Fold(WrappingMul(Fold(WrappingMul(Fold(hash, 30), MUL1), 27), MUL2), 31)
  }

  /** The steps of the finalizer undone, last first. */
  function Unmix(z: Word): Word {
    Unfold(WrappingMul(Unfold(WrappingMul(Unfold(z, 31), OVER2), 27), OVER1), 30)
  }

  lemma MultiplyBack(x: Word, m: Word, over: Word)
    requires (m * over) % TWO_64 == 1
    ensures WrappingMul(WrappingMul(x, m), over) == x
  {
    var q := x * m / TWO_64;
    var r := x * m % TWO_64;
    var p := m * over / TWO_64;
    assert x * m == q * TWO_64 + r && m * over == p * TWO_64 + 1;
    assert r * over == x * (m * over) - q * TWO_64 * over;
    assert r * over == x + TWO_64 * (x * p - q * over);
    Remainder(x, x * p - q * over);
  }

  lemma Remainder(x: Word, k: int)
    ensures (x + TWO_64 * k) % TWO_64 == x
  {
  }

  /** The finalizer is a bijection on 64-bit words: every word is the mix of
      exactly one. */
  lemma MixIsBijective(x: Word)
    ensures Unmix(Mix(x)) == x && Mix(Unmix(x)) == x
  {
    hide Fold, Unfold, WrappingMul;
    var a := Fold(x, 30);
    var b := WrappingMul(a, MUL1);
    var c := Fold(b, 27);
    var d := WrappingMul(c, MUL2);
    UnfoldUndoesFold(d, 31);
    MultiplyBack(c, MUL2, OVER2);
    UnfoldUndoesFold(b, 27);
    MultiplyBack(a, MUL1, OVER1);
    UnfoldUndoesFold(x, 30);
    var p := Unfold(x, 31);
    var q := WrappingMul(p, OVER2);
    var r := Unfold(q, 27);
    var s := WrappingMul(r, OVER1);
    UnfoldUndoesFold(s, 30);
    MultiplyBack(r, OVER1, MUL1);
    UnfoldUndoesFold(q, 27);
    MultiplyBack(p, OVER2, MUL2);
    UnfoldUndoesFold(x, 31);
  }

  // ----- the generator

  /** The state after `n` draws. */
  function StateAfter(seed: Word, n: nat): Word {
    if n == 0 then seed else WrappingAdd(StateAfter(seed, n - 1), GAMMA)
  }

  /** Draw number `n` of a generator, counting from 0. */
  function Draw(seed: Word, n: nat): Word {
    Mix(StateAfter(seed, n + 1))
  }

  lemma {:induction false} StateIsLinear(seed: Word, n: nat)
    ensures StateAfter(seed, n) == (seed + n * GAMMA) % TWO_64
  {
    if n > 0 {
      StateIsLinear(seed, n - 1);
      AddAfterModulo(seed + (n - 1) * GAMMA, GAMMA);
      OneMoreTime(n, GAMMA);
    }
  }

  lemma AddAfterModulo(a: nat, b: Word)
    ensures WrappingAdd(a % TWO_64, b) == (a + b) % TWO_64
  {
  }

  lemma OneMoreTime(n: nat, g: nat)
    requires n > 0
    ensures (n - 1) * g + g == n * g
  {
  }

  /** The increment is odd, so only a multiple of 2^64 steps comes back. */
  lemma OnlyFullTurnsReturn(n: nat)
    ensures (n * GAMMA) % TWO_64 == 0 <==> n % TWO_64 == 0
  {
    if (n * GAMMA) % TWO_64 == 0 {
      var q := n * GAMMA / TWO_64;
      var p := GAMMA * OVER_GAMMA / TWO_64;
      assert n * GAMMA == q * TWO_64 && GAMMA * OVER_GAMMA == p * TWO_64 + 1;
      assert n == TWO_64 * (q * OVER_GAMMA - n * p);
      Remainder(0, q * OVER_GAMMA - n * p);
    }
    if n % TWO_64 == 0 {
      var q := n / TWO_64;
      assert n * GAMMA == TWO_64 * (q * GAMMA);
      Remainder(0, q * GAMMA);
    }
  }

  lemma EqualModulo(a: nat, b: nat)
    requires a <= b
    ensures a % TWO_64 == b % TWO_64 <==> (b - a) % TWO_64 == 0
  {
  }

  /** Two draws of one generator are equal exactly when they are a multiple of
      2^64 draws apart: from any seed, 2^64 draws in a row are all different, and
      then they come round again. */
  lemma DrawsRepeatIff(seed: Word, i: nat, j: nat)
    requires i <= j
    ensures Draw(seed, i) == Draw(seed, j) <==> (j - i) % TWO_64 == 0
  {
    hide Mix, Unmix;
    MixIsBijective(StateAfter(seed, i + 1));
    MixIsBijective(StateAfter(seed, j + 1));
    StateIsLinear(seed, i + 1);
    StateIsLinear(seed, j + 1);
    var a, b := seed + (i + 1) * GAMMA, seed + (j + 1) * GAMMA;
    assert b - a == (j - i) * GAMMA;
    EqualModulo(a, b);
    OnlyFullTurnsReturn(j - i);
  }

  // ----- draws put to use

  function Sum(weights: seq<nat>): nat {
    if weights == [] then 0 else Sum(weights[..|weights| - 1]) + weights[|weights| - 1]
  }

  lemma {:induction false} SumGrows(weights: seq<nat>, i: nat, j: nat)
    requires i <= j <= |weights|
    ensures Sum(weights[..i]) <= Sum(weights[..j])
    decreases j - i
  {
    if i < j {
      assert weights[..j][..j - 1] == weights[..j - 1];
      SumGrows(weights, i, j - 1);
    }
  }

  /** Index `i` is the one whose share of the total `draw` falls in. */
  predicate InShare(weights: seq<nat>, draw: nat, i: nat)
    requires i < |weights|
  {
    Sum(weights[..i]) <= draw < Sum(weights[..i + 1])
  }

  /** Shares do not overlap, so each index answers for as many of the draws as
      its weight, and an index of weight zero for none. */
  lemma SharesAreDisjoint(weights: seq<nat>, draw: nat, i: nat, j: nat)
    requires i < |weights| && j < |weights| && InShare(weights, draw, i) && InShare(weights, draw, j)
    ensures i == j && weights[i] > 0
  {
    SharesAreWide(weights, i);
    if i < j {
      SumGrows(weights, i + 1, j);
    } else if j < i {
      SumGrows(weights, j + 1, i);
    }
  }

  /** The shares start at zero, lie end to end, and each is as wide as its weight. */
  lemma SharesAreWide(weights: seq<nat>, i: nat)
    requires i < |weights|
    ensures Sum(weights[..0]) == 0 && Sum(weights[..i + 1]) == Sum(weights[..i]) + weights[i]
    ensures forall draw: nat :: InShare(weights, draw, i) <==> 0 <= draw - Sum(weights[..i]) < weights[i]
  {
    assert weights[..i + 1][..i] == weights[..i];
  }

  /** Any weight above zero makes a total above zero. */
  lemma WeightIsInTheSum(weights: seq<nat>, i: nat)
    requires i < |weights|
    ensures weights[i] <= Sum(weights)
  {
    SharesAreWide(weights, i);
    SumGrows(weights, i + 1, |weights|);
    assert weights[..|weights|] == weights;
  }

  class Generator {
    var state: Word
    const seed: Word
    /** How many values have been drawn. */
    ghost var drawn: nat

    ghost predicate Valid()
      reads this
    {
      state == StateAfter(seed, drawn)
    }

    constructor (seed: Word)
      ensures Valid() && drawn == 0 && this.seed == seed
    {
      state, this.seed, drawn := seed, seed, 0;
    }

    method NextU64() returns (z: Word)
      requires Valid()
      modifies this
      ensures Valid() && drawn == old(drawn) + 1 && z == Draw(seed, old(drawn))
    {
      hide Fold, WrappingMul, WrappingAdd;
      state := WrappingAdd(state, GAMMA);
      drawn := drawn + 1;
      z := state;
      z := WrappingMul(Fold(z, 30), MUL1);
      z := WrappingMul(Fold(z, 27), MUL2);
      z := Fold(z, 31);
    }

    /** A value in `0..n`. */
    method Range(n: nat) returns (r: nat)
      requires Valid() && n > 0
      modifies this
      ensures Valid() && drawn == old(drawn) + 1
      ensures r < n && r == Draw(seed, old(drawn)) % n
    {
      var z := NextU64();
      r := z % n;
    }

    /** An index, proportional to each entry's weight. */
    method Weighted(weights: seq<nat>) returns (index: nat)
      requires Valid() && exists i :: 0 <= i < |weights| && weights[i] > 0
      modifies this
      ensures Valid() && drawn == old(drawn) + 1
      ensures index < |weights| && Sum(weights) > 0
      ensures InShare(weights, Draw(seed, old(drawn)) % Sum(weights), index)
    {
      ghost var heavy: nat :| heavy < |weights| && weights[heavy] > 0;
      WeightIsInTheSum(weights, heavy);
      var total := 0;
      for i := 0 to |weights|
        invariant total == Sum(weights[..i])
      {
        assert weights[..i + 1][..i] == weights[..i];
        total := total + weights[i];
      }
      assert weights[..|weights|] == weights;
      var z := NextU64();
      var draw := z % total;
      ghost var first := draw;
      for i := 0 to |weights|
        invariant 0 <= draw && first == Sum(weights[..i]) + draw
      {
        assert weights[..i + 1][..i] == weights[..i];
        if draw < weights[i] {
          return i;
        }
        draw := draw - weights[i];
      }
      assert false;
    }

    /** Move `count` distinct elements of `pool` to its front, in draw order. */
    method TakeDistinct<T>(pool: array<T>, count: nat)
      requires Valid() && count <= pool.Length
      modifies this, pool
      ensures Valid() && drawn == old(drawn) + count
      ensures multiset(pool[..]) == multiset(old(pool[..]))
      ensures pool[..] == Taken(old(pool[..]), seed, old(drawn), count)
    {
      hide Draw;
      for i := 0 to count
        invariant Valid() && drawn == old(drawn) + i
        invariant pool[..] == Taken(old(pool[..]), seed, old(drawn), i)
      {
        var j := Range(pool.Length - i);
        j := i + j;
        pool[i], pool[j] := pool[j], pool[i];
      }
      TakenPermutes(old(pool[..]), seed, old(drawn), count);
    }
  }

  function Swapped<T>(s: seq<T>, i: nat, j: nat): seq<T>
    requires i < |s| && j < |s|
  {
    s[i := s[j]][j := s[i]]
  }

  /** The pool after `count` steps of a partial shuffle. */
  function Taken<T>(s: seq<T>, seed: Word, from: nat, count: nat): (t: seq<T>)
    requires count <= |s|
    ensures |t| == |s|
  {
    if count == 0 then s
    else
      var i := count - 1;
      Swapped(Taken(s, seed, from, i), i, i + Draw(seed, from + i) % (|s| - i))
  }

  /** A shuffle keeps every element as often as it was there. */
  lemma {:induction false} TakenPermutes<T>(s: seq<T>, seed: Word, from: nat, count: nat)
    requires count <= |s|
    ensures multiset(Taken(s, seed, from, count)) == multiset(s)
  {
    hide Draw, Swapped, Fold, Mix, StateAfter;
    if count > 0 {
      TakenPermutes(s, seed, from, count - 1);
      OneMoreTaken(s, seed, from, count);
    }
  }

  lemma OneMoreTaken<T>(s: seq<T>, seed: Word, from: nat, count: nat)
    requires 0 < count <= |s|
    ensures multiset(Taken(s, seed, from, count)) == multiset(Taken(s, seed, from, count - 1))
  {
    hide Draw, Swapped, Fold, Mix, StateAfter;
    var i := count - 1;
    SwapPermutes(Taken(s, seed, from, i), i, i + Draw(seed, from + i) % (|s| - i));
  }

  lemma SwapPermutes<T>(s: seq<T>, i: nat, j: nat)
    requires i < |s| && j < |s|
    ensures multiset(Swapped(s, i, j)) == multiset(s)
  {
  }

  /** What is taken `i`-th is what its own draw points at, among the elements the
      earlier draws have not taken; and later draws leave it where it is. */
  lemma {:induction false} TakenAt<T>(s: seq<T>, seed: Word, from: nat, count: nat, i: nat)
    requires i < count <= |s|
    ensures Taken(s, seed, from, count)[i] == Taken(s, seed, from, i)[i + Draw(seed, from + i) % (|s| - i)]
    decreases count
  {
    hide Draw, Fold, Mix, StateAfter;
    if i + 1 < count {
      TakenAt(s, seed, from, count - 1, i);
      LaterSwapsMiss(Taken(s, seed, from, count - 1), i, count - 1, Draw(seed, from + count - 1) % (|s| - (count - 1)));
      assert from + (count - 1) == from + count - 1;
    }
  }

  lemma LaterSwapsMiss<T>(s: seq<T>, i: nat, at: nat, ahead: nat)
    requires i < at && at + ahead < |s|
    ensures Swapped(s, at, at + ahead)[i] == s[i]
  {
  }

  /** From a pool without repeats the elements taken are all different. */
  lemma TakenAreDistinct<T>(s: seq<T>, seed: Word, from: nat, count: nat)
    requires count <= |s| && forall i, j :: 0 <= i < j < |s| ==> s[i] != s[j]
    ensures forall i, j :: 0 <= i < j < count ==> Taken(s, seed, from, count)[i] != Taken(s, seed, from, count)[j]
  {
    var t := Taken(s, seed, from, count);
    TakenPermutes(s, seed, from, count);
    forall i, j | 0 <= i < j < |t| ensures t[i] != t[j] {
      if t[i] == t[j] {
        AtLeastTwice(t, i, j);
        AtMostOnce(s, t[i]);
      }
    }
  }

  lemma AtLeastTwice<T>(t: seq<T>, i: nat, j: nat)
    requires i < j < |t| && t[i] == t[j]
    ensures multiset(t)[t[i]] >= 2
  {
    assert t == t[..j] + t[j..];
    assert t[i] == t[..j][i] && t[j] == t[j..][0];
    assert t[i] in multiset(t[..j]) && t[i] in multiset(t[j..]);
  }

  lemma {:induction false} AtMostOnce<T>(s: seq<T>, x: T)
    requires forall i, j :: 0 <= i < j < |s| ==> s[i] != s[j]
    ensures multiset(s)[x] <= 1
  {
    if s != [] {
      AtMostOnce(s[1..], x);
      assert s == [s[0]] + s[1..];
      if s[0] == x {
        assert x !in s[1..];
      }
    }
  }
}
