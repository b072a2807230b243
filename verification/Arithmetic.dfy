/** Facts about products and quotients of natural numbers. */
module Arithmetic {

  function Quotient(t: nat, d: nat): nat
    requires d >= 1
  {
    t / d
  }

  function Remainder(t: nat, d: nat): nat
    requires d >= 1
  {
    t % d
  }

  lemma MulMonotone(a: nat, b: nat, k: nat)
    requires a <= b
    ensures a * k <= b * k
  {
  }

  lemma MulStrict(a: nat, b: nat, k: nat)
    requires a < b
    ensures a * k + k <= b * k
  {
    MulMonotone(a + 1, b, k);
    assert (a + 1) * k == a * k + k;
  }

  lemma QuotientRemainder(t: nat, d: nat)
    requires d >= 1
    ensures t / d * d <= t < t / d * d + d
  {
    assert t == d * (t / d) + t % d;
  }

  lemma QuotientUnique(t: nat, d: nat, q: nat)
    requires d >= 1 && q * d <= t < q * d + d
    ensures t / d == q
  {
    QuotientRemainder(t, d);
    var p := t / d;
    if p < q {
      MulStrict(p, q, d);
    } else if p > q {
      MulStrict(q, p, d);
    }
  }

  /** Dividing is the upper adjoint of multiplying. */
  lemma QuotientAtLeast(t: nat, d: nat, q: nat)
    requires d >= 1
    ensures q <= t / d <==> q * d <= t
  {
    QuotientRemainder(t, d);
    if q <= t / d {
      MulMonotone(q, t / d, d);
    } else {
      MulStrict(t / d, q, d);
    }
  }

  lemma QuotientBounds(t: nat, d: nat, low: nat, high: nat)
    requires d >= 1 && low * d <= t < high * d
    ensures low <= t / d < high
  {
    QuotientAtLeast(t, d, low);
    QuotientAtLeast(t, d, high);
  }

  lemma QuotientAtMost(t: nat, d: nat)
    requires d >= 1
    ensures t / d <= t
  {
    QuotientRemainder(t, d);
    var q := t / d;
    MulMonotone(1, d, q);
    assert q * d == d * q;
  }

  /** Dividing by a and then by b loses between nothing and a * b. */
  lemma QuotientTwice(t: nat, a: nat, b: nat)
    requires a >= 1 && b >= 1
    ensures t / a / b * (b * a) <= t < t / a / b * (b * a) + b * a
  {
    var q := t / a;
    var q2 := q / b;
    QuotientRemainder(t, a);
    QuotientRemainder(q, b);
    MulMonotone(q2 * b, q, a);
    MulStrict(q, q2 * b + b, a);
    assert q2 * b * a == q2 * (b * a);
    assert (q2 * b + b) * a == q2 * b * a + b * a;
  }

  lemma DivideTwice(t: nat, a: nat, b: nat)
    requires a >= 1 && b >= 1
    ensures b * a >= 1 && t / a / b == t / (b * a)
  {
    MulMonotone(1, b, a);
    QuotientTwice(t, a, b);
    QuotientUnique(t, b * a, t / a / b);
  }

  lemma QuotientShift(a: nat, d: nat, r: nat)
    requires d >= 1
    ensures (a * d + r) / d == a + r / d
  {
    QuotientRemainder(r, d);
    assert (a + r / d) * d == a * d + r / d * d;
    QuotientUnique(a * d + r, d, a + r / d);
  }

  lemma RemainderShift(a: nat, d: nat, r: nat)
    requires d >= 1
    ensures (a * d + r) % d == r % d
  {
    QuotientShift(a, d, r);
    var t, q := a * d + r, a + r / d;
    assert t == d * (t / d) + t % d;
    assert r == d * (r / d) + r % d;
    assert d * q == a * d + d * (r / d);
  }

  /** What sits above a window of `base` values in units of `low` does not show in it. */
  lemma WindowInWord(high: nat, w: nat, base: nat, low: nat)
    requires base >= 1 && low >= 1
    ensures (high * base * low + w) / low % base == w / low % base
  {
    QuotientShift(high * base, low, w);
    RemainderShift(high, base, w / low);
  }

  /** A number is its high part in units of the base, plus one digit. */
  lemma SplitDigit(v: nat, base: nat, low: nat)
    requires base >= 1 && low >= 1
    ensures base * low >= 1
    ensures v / (base * low) * base + v / low % base == v / low
  {
    DivideTwice(v, low, base);
    var q := v / low;
    assert q == base * (q / base) + q % base;
  }

  lemma ExactQuotient(v: nat, d: nat)
    requires d >= 1
    ensures v % d == 0 ==> v / d * d == v
  {
    assert v == d * (v / d) + v % d;
  }

  lemma ProductQuotient(a: nat, d: nat)
    requires d >= 1
    ensures a * d / d == a && a * d % d == 0
  {
    QuotientUnique(a * d, d, a);
    RemainderShift(a, d, 0);
  }
}
