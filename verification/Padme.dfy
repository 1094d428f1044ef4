/** Padmé: the size class a sealed stream is padded to. */
module Padme {
  import opened Arithmetic

  /** The position of the highest set bit. */
  function Log2(n: nat): (e: nat)
    requires n > 0
    ensures Pow2(e) <= n < Pow2(e + 1)
  {
    if n == 1 then 0 else Log2(n / 2) + 1
  }

  /** The granularity at a length: about a half more bits are kept than its exponent has digits. */
  function Step(len: nat): (step: nat)
    requires len >= 2
    ensures step >= 1
  {
    var e := Log2(len);
    var s := if e == 0 then 0 else Log2(e) + 1;
    if s <= e then Pow2(e - s) else 1
  }

  /** The next multiple of the step. */
  function RoundUp(len: nat, step: nat): (r: nat)
    requires step >= 1
    ensures len <= r < len + step
  {
    RoundUpBounds(len, step);
    (len + step - 1) / step * step
  }

  lemma {:induction false} RoundUpBounds(len: nat, step: nat)
    requires step >= 1
    ensures len <= (len + step - 1) / step * step < len + step
  {
    var q := (len + step - 1) / step;
    assert len + step - 1 == q * step + (len + step - 1) % step;
  }

  lemma {:induction false} AndAllOnes(x: nat, w: nat)
    requires x < Pow2(w)
    ensures And(x, Pow2(w) - 1) == x
  {
    if w > 0 && x > 0 {
      AndAllOnes(x / 2, w - 1);
      assert (Pow2(w) - 1) / 2 == Pow2(w - 1) - 1;
    }
  }

  lemma {:induction false} AndEven(x: nat, m: nat)
    ensures And(x, 2 * m) == 2 * And(x / 2, m)
  {
  }

  /** `x >> k`. */
  function Shift(x: nat, k: nat): (q: nat)
    ensures q * Pow2(k) <= x < q * Pow2(k) + Pow2(k)
  {
    if k == 0 then x
    else
      var q := Shift(x / 2, k - 1);
      Doubled(q, Pow2(k - 1));
      q
  }

  lemma {:induction false} Doubled(q: nat, d: nat)
    ensures q * (2 * d) == 2 * (q * d)
  {
  }

  /** Clearing the low `k` bits of a `w`-bit number. */
  lemma {:induction false} AndClears(x: nat, k: nat, w: nat)
    requires k <= w && x < Pow2(w)
    ensures Pow2(k) <= Pow2(w)
    ensures And(x, Pow2(w) - Pow2(k)) == Shift(x, k) * Pow2(k)
  {
    if k == 0 {
      AndAllOnes(x, w);
    } else {
      AndClears(x / 2, k - 1, w - 1);
      AndEven(x, Pow2(w - 1) - Pow2(k - 1));
      Doubled(Shift(x, k), Pow2(k - 1));
    }
  }

  lemma {:induction false} QuotientIs(x: nat, d: nat, q: nat, r: nat)
    requires d >= 1 && x == q * d + r && r < d
    ensures x / d == q
  {
    var p := x / d;
    assert x == p * d + x % d;
    assert p <= q by {
      assert p > q ==> p * d >= (q + 1) * d;
    }
    assert p >= q by {
      assert p < q ==> q * d >= (p + 1) * d;
    }
  }

  /** The position of the lowest bit that padding keeps. */
  function LowBits(len: nat): nat
    requires len >= 2
  {
    var e := Log2(len);
    var s := if e == 0 then 0 else Log2(e) + 1;
    if s <= e then e - s else 0
  }

  /** In `w` bits, adding the mask and clearing its bits is that rounding, as long as the sum fits. */
  lemma {:induction false} MaskRoundsUp(len: nat, w: nat)
    requires len >= 2 && len + Step(len) - 1 < Pow2(w)
    ensures var mask := Pow2(LowBits(len)) - 1;
            Step(len) == mask + 1 && mask < Pow2(w) && And(len + mask, Pow2(w) - 1 - mask) == PadmeLen(len)
  {
    var k := LowBits(len);
    assert Step(len) == Pow2(k) by {
      assert Pow2(0) == 1;
    }
    hide Step, LowBits;
    assert k <= w by {
      if k > w {
        Pow2Monotone(w, k);
      }
    }
    var sum := len + Pow2(k) - 1;
    AndClears(sum, k, w);
    QuotientIs(sum, Pow2(k), Shift(sum, k), sum - Shift(sum, k) * Pow2(k));
  }

  function PadmeLen(len: nat): (r: nat)
    ensures r >= len
  {
    if len < 2 then len else RoundUp(len, Step(len))
  }

  /** Padding adds at most an eighth. */
  lemma {:induction false} PadmeBound(len: nat)
    ensures PadmeLen(len) <= len + len / 8
  {
    if len >= 2 {
      StepBound(len);
    }
  }

  lemma {:induction false} StepBound(len: nat)
    requires len >= 2
    ensures Step(len) <= 1 + len / 8
  {
    var e := Log2(len);
    assert e >= 1 by {
      assert Pow2(1) == 2;
    }
    if e < 4 {
      SmallStep(len, e);
    } else {
      assert Log2(e) >= 2 by {
        SmallLog(e);
      }
      var s := Log2(e) + 1;
      if s <= e {
        Pow2Monotone(e - s, e - 3);
        Pow2Eighth(e);
      }
    }
  }

  lemma {:induction false} SmallLog(e: nat)
    requires e >= 4
    ensures Log2(e) >= 2
  {
    assert Log2(e) == Log2(e / 2) + 1;
    assert Log2(e / 2) == Log2(e / 2 / 2) + 1;
  }

  lemma {:induction false} SmallStep(len: nat, e: nat)
    requires len >= 2 && e == Log2(len) && 1 <= e < 4
    ensures Step(len) <= 1 + len / 8
  {
    assert Pow2(1) == 2 && Pow2(2) == 4 && Pow2(3) == 8 && Pow2(0) == 1;
    assert Log2(1) == 0 && Log2(2) == 1 && Log2(3) == 1;
  }

  lemma {:induction false} Pow2Monotone(a: nat, b: nat)
    requires a <= b
    ensures Pow2(a) <= Pow2(b)
    decreases b - a
  {
    if a < b {
      Pow2Monotone(a + 1, b);
    }
  }

  lemma {:induction false} Pow2Eighth(e: nat)
    requires e >= 3
    ensures Pow2(e) == 8 * Pow2(e - 3)
  {
    assert Pow2(e - 2) == 2 * Pow2(e - 3) && Pow2(e - 1) == 2 * Pow2(e - 2);
  }

  lemma {:induction false} Log2Is(n: nat, e: nat)
    requires Pow2(e) <= n < Pow2(e + 1)
    ensures n > 0 && Log2(n) == e
  {
    if e < Log2(n) {
      Pow2Monotone(e + 1, Log2(n));
    } else if Log2(n) < e {
      Pow2Monotone(Log2(n) + 1, e);
    }
  }

  lemma {:induction false} Pow2Exceeds(n: nat)
    ensures n < Pow2(n)
  {
    if n > 0 {
      Pow2Exceeds(n - 1);
    }
  }

  lemma {:induction false} Pow2Sum(a: nat, b: nat)
    ensures Pow2(a) * Pow2(b) == Pow2(a + b)
  {
    if a > 0 {
      Pow2Sum(a - 1, b);
    }
  }

  /** The step in powers: a length between `2^e` and twice that keeps as many bits as `e` has digits below its first. */
  lemma {:induction false} StepIs(len: nat, e: nat, s: nat)
    requires Pow2(e) <= len < Pow2(e + 1) && 1 <= s && Pow2(s - 1) <= e < Pow2(s)
    ensures len >= 2 && s <= e && Pow2(s) * Step(len) == Pow2(e)
  {
    Log2Is(len, e);
    Log2Is(e, s - 1);
    Pow2Exceeds(s - 1);
    Pow2Monotone(1, e);
    Pow2Sum(s, e - s);
  }

  lemma {:induction false} Between(p: nat, n: nat, step: nat, len: nat)
    requires step >= 1 && n * step <= len <= p * step <= (2 * n) * step
    ensures n <= p <= 2 * n && p * step == n * step + (p - n) * step
  {
    assert (p + 1) * step == p * step + step && (2 * n + 1) * step == (2 * n) * step + step;
    if p < n {
      MulMonotone(p + 1, n, step);
    } else if p > 2 * n {
      MulMonotone(2 * n + 1, p, step);
    }
  }

  lemma {:induction false} Pow2Double(e: nat)
    ensures Pow2(e + 1) == 2 * Pow2(e)
  {
  }

  lemma {:induction false} PadmeSteps(len: nat) returns (p: nat)
    requires len >= 2
    ensures PadmeLen(len) == p * Step(len)
  {
    p := (len + Step(len) - 1) / Step(len);
  }

  /** What a padded length gives away: from `2^e` to twice that there are no more than `2e` steps to stand on. */
  lemma {:induction false} FewClasses(len: nat, e: nat, s: nat) returns (q: nat)
    requires Pow2(e) <= len < Pow2(e + 1) && 1 <= s && Pow2(s - 1) <= e < Pow2(s)
    ensures len >= 2 && PadmeLen(len) == Pow2(e) + q * Step(len) && q <= Pow2(s) <= 2 * e
  {
    hide PadmeLen, Step, Pow2;
    StepIs(len, e, s);
    Pow2Double(e);
    Pow2Double(s - 1);
    var step, n := Step(len), Pow2(s);
    assert (2 * n) * step == 2 * (n * step);
    PadmeIsLeast(len, 2 * n);
    var p := PadmeSteps(len);
    Between(p, n, step, len);
    q := p - n;
  }

  /** It is a multiple of its step, and the least one that holds the stream. */
  lemma {:induction false} PadmeIsLeast(len: nat, q: nat)
    requires len >= 2 && q * Step(len) >= len
    ensures exists p: nat :: PadmeLen(len) == p * Step(len)
    ensures PadmeLen(len) <= q * Step(len)
  {
    var step := Step(len);
    var p := (len + step - 1) / step;
    if p > q {
      assert (q + 1) * step <= p * step by {
        MulMonotone(q + 1, p, step);
      }
      assert (q + 1) * step == q * step + step;
    } else {
      MulMonotone(p, q, step);
    }
  }

  lemma {:induction false} MulMonotone(a: nat, b: nat, k: nat)
    requires a <= b
    ensures a * k <= b * k
  {
    assert b * k == a * k + (b - a) * k;
  }
}
