/** Prefix sums, saturating subtraction and the bit tricks of `usize`, on unbounded naturals. */
module Arithmetic {

  datatype Option<+T> = None | Some(value: T)

  /** `usize::saturating_sub`. */
  function SatSub(a: nat, b: nat): nat {
    if a >= b then a - b else 0
  }

  function Min(a: nat, b: nat): nat {
    if a <= b then a else b
  }

  function Max(a: nat, b: nat): nat {
    if a <= b then b else a
  }

  /** Sum of the first `n` elements. */
  function Prefix(s: seq<nat>, n: nat): nat
    requires n <= |s|
  {
    if n == 0 then 0 else Prefix(s, n - 1) + s[n - 1]
  }

  lemma {:induction false} PrefixMonotone(s: seq<nat>, a: nat, b: nat)
    requires a <= b <= |s|
    ensures Prefix(s, a) <= Prefix(s, b)
    decreases b
  {
    if a < b {
      PrefixMonotone(s, a, b - 1);
    }
  }

  lemma {:induction false} PrefixAgrees(s: seq<nat>, t: seq<nat>, n: nat)
    requires n <= |s| && n <= |t|
    requires forall i :: 0 <= i < n ==> s[i] == t[i]
    ensures Prefix(s, n) == Prefix(t, n)
  {
    if n > 0 {
      PrefixAgrees(s, t, n - 1);
    }
  }

  /** Changing one element by `d` moves exactly the prefixes that reach past it. */
  lemma {:induction false} PrefixUpdate(s: seq<nat>, i: nat, v: nat, n: nat)
    requires i < |s| && n <= |s|
    ensures Prefix(s[i := v], n) == if n <= i then Prefix(s, n) else Prefix(s, n) - s[i] + v
  {
    if n > 0 {
      PrefixUpdate(s, i, v, n - 1);
    }
  }

  // --- Bits -----------------------------------------------------------------

  function Pow2(w: nat): (p: nat)
    ensures p >= 1
  {
    if w == 0 then 1 else 2 * Pow2(w - 1)
  }

  /** Bitwise `&`. */
  function And(a: nat, b: nat): nat {
    if a == 0 || b == 0 then 0 else (a % 2) * (b % 2) + 2 * And(a / 2, b / 2)
  }

  /** The value of the lowest set bit. */
  function LowBit(i: nat): (b: nat)
    requires i > 0
    ensures 1 <= b <= i
  {
    if i % 2 == 1 then 1 else 2 * LowBit(i / 2)
  }

  lemma {:induction false} AndComplement(x: nat, w: nat)
    requires x < Pow2(w)
    ensures And(x, Pow2(w) - 1 - x) == 0
  {
    if w > 0 && x > 0 {
      AndComplement(x / 2, w - 1);
      assert (Pow2(w) - 1 - x) / 2 == Pow2(w - 1) - 1 - x / 2;
    }
  }

  /** `i & i.wrapping_neg()` isolates the lowest set bit of a `w`-bit number. */
  lemma {:induction false} AndWrappingNeg(i: nat, w: nat)
    requires 0 < i < Pow2(w)
    ensures And(i, Pow2(w) - i) == LowBit(i)
  {
    if i % 2 == 1 {
      AndComplement(i / 2, w - 1);
      assert (Pow2(w) - i) / 2 == Pow2(w - 1) - 1 - i / 2;
    } else {
      AndWrappingNeg(i / 2, w - 1);
    }
  }

  /** `i & (i - 1)` clears the lowest set bit. */
  lemma {:induction false} AndPredecessor(i: nat)
    requires i > 0
    ensures And(i, i - 1) == i - LowBit(i)
  {
    if i % 2 == 1 {
      AndSelf(i / 2);
    } else {
      AndPredecessor(i / 2);
      assert (i - 1) / 2 == i / 2 - 1;
    }
  }

  lemma {:induction false} AndSelf(i: nat)
    ensures And(i, i) == i
  {
    if i > 0 {
      AndSelf(i / 2);
    }
  }

  /** One past the largest `usize`. */
  const USIZE_LIMIT: nat := 0x1_0000_0000_0000_0000

  lemma {:induction false} Pow2Times256(w: nat)
    ensures Pow2(w + 8) == 256 * Pow2(w)
  {
    assert Pow2(w + 4) == 2 * Pow2(w + 3) == 4 * Pow2(w + 2) == 8 * Pow2(w + 1) == 16 * Pow2(w);
    assert Pow2(w + 8) == 2 * Pow2(w + 7) == 4 * Pow2(w + 6) == 8 * Pow2(w + 5) == 16 * Pow2(w + 4);
  }

  lemma {:induction false} UsizeLimit()
    ensures Pow2(64) == USIZE_LIMIT
  {
    assert Pow2(8 - 8) == 1;
    Pow2Times256(0);
    Pow2Times256(8);
    Pow2Times256(16);
    Pow2Times256(24);
    Pow2Times256(32);
    Pow2Times256(40);
    Pow2Times256(48);
    Pow2Times256(56);
  }

  /** The lowest set bit, as `i & i.wrapping_neg()` computes it. */
  function IsolateLowBit(i: nat): (b: nat)
    requires 0 < i < USIZE_LIMIT
    ensures b == LowBit(i)
  {
    UsizeLimit();
    AndWrappingNeg(i, 64);
    And(i, USIZE_LIMIT - i)
  }

  /** `i & (i - 1)`. */
  function ClearLowBit(i: nat): (rest: nat)
    requires i > 0
    ensures rest == i - LowBit(i)
  {
    AndPredecessor(i);
    And(i, i - 1)
  }

  ghost predicate IsPow2(p: nat) {
    p > 0 && LowBit(p) == p
  }

  /** `usize::next_power_of_two`. */
  function NextPowerOfTwo(n: nat): (p: nat)
    ensures p >= n && p >= 1 && IsPow2(p)
  {
    if n <= 1 then 1 else 2 * NextPowerOfTwo((n + 1) / 2)
  }
}
