/** Bitwise or on unbounded naturals, and the rounding idiom `((x - 1) | (A - 1)) + 1`
    that the allocator uses to reach the next multiple of a power of two. */
module Bits {

  function Pow2(k: nat): (p: nat)
    ensures p >= 1
  {
    if k == 0 then 1 else 2 * Pow2(k - 1)
  }

  function BitOr(a: nat, b: nat): (r: nat)
    decreases a + b
  {
    if a == 0 && b == 0 then 0
    else 2 * BitOr(a / 2, b / 2) + (if a % 2 == 1 || b % 2 == 1 then 1 else 0)
  }

  /** Bit `i` of `n`, the least significant bit being bit 0. */
  predicate Bit(n: nat, i: nat) {
    if i == 0 then n % 2 == 1 else Bit(n / 2, i - 1)
  }

  /** `BitOr` is the bitwise or: every bit of the result is the disjunction of the operands' bits. */
  lemma {:induction false} BitOrBits(a: nat, b: nat, i: nat)
    ensures Bit(BitOr(a, b), i) <==> Bit(a, i) || Bit(b, i)
    decreases i
  {
    var r := BitOr(a, b);
    if a == 0 && b == 0 {
      if i > 0 { BitOrBits(0, 0, i - 1); }
    } else {
      assert r / 2 == BitOr(a / 2, b / 2);
      if i > 0 { BitOrBits(a / 2, b / 2, i - 1); }
    }
  }

  lemma {:induction false} ProductsOrdered(a: int, b: int, d: nat)
    requires a <= b
    ensures a * d <= b * d
  {
    assert b * d - a * d == (b - a) * d;
    if d > 0 { ProductsOrdered(a, b, d - 1); }
  }

  lemma QuotientUnique(n: int, d: int, q: int, r: int)
    requires d > 0 && n == q * d + r && 0 <= r < d
    ensures n / d == q && n % d == r
  {
    var p := n / d;
    if p < q {
      ProductsOrdered(p + 1, q, d);
      assert false;
    } else if p > q {
      ProductsOrdered(q + 1, p, d);
      assert false;
    }
  }

  lemma {:induction false} BitOrZero(n: nat)
    ensures BitOr(n, 0) == n
  {
    if n > 0 { BitOrZero(n / 2); }
  }

  lemma HalvedMask(n: nat, p: nat)
    requires p >= 1
    ensures BitOr(n, 2 * p - 1) == 2 * BitOr(n / 2, p - 1) + 1
  {
    var mask := 2 * p - 1;
    assert mask % 2 == 1 && mask / 2 == p - 1;
  }

  /** Dividing by twice `p` is halving and then dividing by `p`. */
  lemma DoubledDivisor(n: nat, p: nat)
    requires p >= 1
    ensures n / (2 * p) * (2 * p) == 2 * (n / 2 / p * p)
  {
    var q, r := n / 2 / p, n / 2 % p;
    assert n / 2 == q * p + r;
    assert q * (2 * p) == 2 * (q * p);
    QuotientUnique(n, 2 * p, q, 2 * r + n % 2);
  }

  lemma MaskStep(n: nat, p: nat, d: nat)
    requires p >= 1 && d == 2 * p && BitOr(n / 2, p - 1) == n / 2 / p * p + p - 1
    ensures BitOr(n, d - 1) == n / d * d + d - 1
  {
    HalvedMask(n, p);
    DoubledDivisor(n, p);
  }

  /** Or-ing with an all-ones mask of `k` bits fills the low `k` bits and keeps the rest. */
  lemma {:induction false} BitOrMask(n: nat, k: nat)
    ensures BitOr(n, Pow2(k) - 1) == n / Pow2(k) * Pow2(k) + Pow2(k) - 1
  {
    if k == 0 {
      BitOrZero(n);
    } else {
      BitOrMask(n / 2, k - 1);
      MaskStep(n, Pow2(k - 1), Pow2(k));
    }
  }

  /** `((x - 1) | (A - 1)) + 1` for `A == 2^k`, before any wrap-around. */
  function FastRound(x: nat, k: nat): (r: nat)
    requires x >= 1
  {
    BitOr(x - 1, Pow2(k) - 1) + 1
  }

  /** The fast form is the least multiple of `2^k` that is at least `x`. */
  lemma FastRoundIsLeastMultiple(x: nat, k: nat)
    requires x >= 1
    ensures FastRound(x, k) % Pow2(k) == 0
    ensures x <= FastRound(x, k) < x + Pow2(k)
    ensures forall m: nat :: m % Pow2(k) == 0 && x <= m ==> FastRound(x, k) <= m
  {
    BitOrMask(x - 1, k);
    NextMultiple(x, Pow2(k), FastRound(x, k));
  }

  lemma NextMultiple(x: nat, a: nat, f: nat)
    requires a > 0 && x >= 1
    requires f == (x - 1) / a * a + a
    ensures f % a == 0 && x <= f < x + a
    ensures forall m: nat :: m % a == 0 && x <= m ==> f <= m
  {
    var q, r := (x - 1) / a, (x - 1) % a;
    assert f == (q + 1) * a;
    QuotientUnique(f, a, q + 1, 0);
    forall m: nat | m % a == 0 && x <= m
      ensures f <= m
    {
      MultipleAtLeast(x, a, q, r, m);
    }
  }

  lemma MultipleAtLeast(x: nat, a: nat, q: nat, r: nat, m: nat)
    requires a > 0 && x - 1 == q * a + r && r < a && m % a == 0 && x <= m
    ensures (q + 1) * a <= m
  {
    var c := m / a;
    assert m == c * a;
    if c <= q {
      ProductsOrdered(c, q, a);
      assert false;
    }
    ProductsOrdered(q + 1, c, a);
  }
}
