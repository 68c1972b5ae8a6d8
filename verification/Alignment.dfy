/**
  Rounding an address up with masks, (x + mask) &^ mask, on words given bit by bit.
 */
module Alignment {
  import opened Common

  function Pow2(k: nat): (r: nat)
    ensures r > 0
  {
    if k == 0 then 1 else 2 * Pow2(k - 1)
  }

  /** x & y */
  function And(x: nat, y: nat): nat {
    if x == 0 || y == 0 then 0 else 2 * And(x / 2, y / 2) + (x % 2) * (y % 2)
  }

  /** ^x, in words of `w` bits */
  function Not(x: nat, w: nat): nat {
    if w == 0 then 0 else 2 * Not(x / 2, w - 1) + (1 - x % 2)
  }

  lemma {:induction false} AndOnes(x: nat, w: nat)
    requires x < Pow2(w)
    ensures And(x, Not(0, w)) == x
  {
    if w > 0 && x > 0 {
      AndOnes(x / 2, w - 1);
    }
  }

  lemma OddMask(x: nat, m: nat, w: nat)
    requires m > 0 && w > 0
    ensures And(x, Not(2 * m - 1, w)) == 2 * And(x / 2, Not(m - 1, w - 1))
  {
    assert (2 * m - 1) / 2 == m - 1 && (2 * m - 1) % 2 == 1;
  }

  /** Clearing the low `k` bits rounds down to a multiple of 2^k. */
  lemma {:induction false} ClearLowBits(x: nat, k: nat, w: nat)
    requires k <= w && x < Pow2(w)
    ensures And(x, Not(Pow2(k) - 1, w)) == x / Pow2(k) * Pow2(k)
  {
    if k == 0 {
      AndOnes(x, w);
    } else {
      var m := Pow2(k - 1);
      assert x / 2 < Pow2(w - 1);
      hide And, Not;
      OddMask(x, m, w);
      ClearLowBits(x / 2, k - 1, w - 1);
      HalfTwice(x, m);
    }
  }

  lemma HalfTwice(x: nat, m: nat)
    requires m > 0
    ensures x / (2 * m) == x / 2 / m
    ensures 2 * (x / 2 / m * m) == x / (2 * m) * (2 * m)
  {
    var q := x / 2 / m;
    assert q * m <= x / 2 < q * m + m;
    assert 2 * (q * m) == q * (2 * m);
    QuotientIs(x, 2 * m, q);
  }

  lemma QuotientIs(x: nat, d: nat, q: nat)
    requires d > 0 && q * d <= x < q * d + d
    ensures x / d == q
  {
    var p := x / d;
    assert p * d <= x < p * d + d;
    if p < q {
      Monotone(p + 1, q, d);
    } else if p > q {
      Monotone(q + 1, p, d);
    }
  }

  const WORD := 64

  /** The offset that Malloc computes: ((x + mask) & ^mask) - x with mask = align - 1. */
  function Padding(x: nat, align: nat): int
    requires align > 0
  {
    And(x + (align - 1), Not(align - 1, WORD)) - x
  }

  predicate Aligned(x: nat, align: nat)
    requires align > 0
  {
    x % align == 0
  }

  /** It is the least number of bytes that leads from `x` to an aligned address. */
  lemma LeastPadding(x: nat, k: nat)
    requires k <= WORD && x + Pow2(k) - 1 < Pow2(WORD)
    ensures var p := Padding(x, Pow2(k));
      && 0 <= p < Pow2(k)
      && Aligned(x + p, Pow2(k))
      && forall y :: x <= y < x + p ==> !Aligned(y, Pow2(k))
  {
    hide Pow2, And, Not, Aligned;
    ClearLowBits(x + Pow2(k) - 1, k, WORD);
    RoundUp(x, Pow2(k));
  }

  lemma RoundUp(x: nat, a: nat)
    requires a > 0
    ensures var r := (x + a - 1) / a * a;
      x <= r < x + a && Aligned(r, a) && forall y :: x <= y < r ==> !Aligned(y, a)
  {
    var q := (x + a - 1) / a;
    assert q * a <= x + a - 1 < q * a + a;
    MultipleOf(q, a, 0);
    forall y | x <= y < q * a ensures !Aligned(y, a) {
      Between(q, a, y);
    }
  }

  lemma Between(q: nat, a: nat, y: nat)
    requires a > 0 && q * a - a < y < q * a
    ensures !Aligned(y, a)
  {
    MultipleOf(q - 1, a, y - (q * a - a));
  }

  lemma MultipleOf(q: int, a: nat, r: nat)
    requires r < a
    ensures (q * a + r) % a == r
  {
    var t := (q * a + r) / a;
    var m := (q * a + r) % a;
    assert q * a + r == t * a + m;
    if t < q {
      Monotone(t + 1, q, a);
    } else if t > q {
      Monotone(q + 1, t, a);
    }
  }
}
