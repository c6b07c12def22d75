/**
  Facts about products, quotients and multiples of integers that several proofs need.
 */
module Arithmetic {

  lemma TimesMonotone(d: int, a: int, b: int)
    requires d >= 0 && a <= b
    ensures d * a <= d * b
  {
  }

  lemma DivModOfSum(d: int, q: int, r: int)
    requires 0 <= r < d
    ensures (d * q + r) / d == q && (d * q + r) % d == r
  {
    var n := d * q + r;
    var q' := n / d;
    if q' < q {
      TimesMonotone(d, q' + 1, q);
    } else if q < q' {
      TimesMonotone(d, q + 1, q');
    }
  }

  lemma TimesDifference(n: int, a: int, b: int)
    ensures n * (a - b) == n * a - n * b && -n * a == -(n * a) && -n * b == -(n * b)
  {
  }

  lemma SameSign(a: int, b: int)
    ensures a <= 0 && b <= 0 ==> a * b >= 0
    ensures a > 0 && b > 0 ==> a * b > 0
    ensures a == 0 ==> a * b == 0
  {
  }

  lemma NextMultiple(a: int, b: int, step: int)
    requires step >= 1 && a < b && a % step == 0 && b % step == 0
    ensures a + step <= b
  {
    assert a == step * (a / step) && b == step * (b / step);
    if b / step <= a / step {
      TimesMonotone(step, b / step, a / step);
    } else {
      TimesMonotone(step, a / step + 1, b / step);
    }
  }

  lemma MultipleIsTimes(m: int, step: int)
    requires step >= 1 && m % step == 0
    ensures m == step * (m / step)
  {
  }

  lemma AtLeastOneMultiple(m: int, step: int)
    requires 1 <= step && 1 <= m && m % step == 0
    ensures step <= m
  {
  }

  lemma SumOfMultiples(step: int, p: int, q: int)
    requires step >= 1
    ensures (step * p + step * q) % step == 0
    ensures step * -q == -(step * q)
  {
    assert step * p + step * q == step * (p + q) + 0;
    DivModOfSum(step, p + q, 0);
  }

  lemma MultiplesAdd(a: int, b: int, step: int)
    requires step >= 1 && a % step == 0 && b % step == 0
    ensures (a + b) % step == 0 && (a - b) % step == 0
  {
    var p, q := a / step, b / step;
    assert a == step * p && b == step * q;
    SumOfMultiples(step, p, q);
    SumOfMultiples(step, p, -q);
  }

  /** The last multiple at or left of x, and what follows from it for other multiples. */
  lemma LastMultiple(x: int, m: int, step: int)
    requires step >= 1 && m % step == 0 && m <= x
    ensures (x - x % step) % step == 0 && m <= x - x % step
  {
    assert x == step * (x / step) + x % step;
    DivModOfSum(step, x / step, 0);
    if x - x % step < m {
      NextMultiple(x - x % step, m, step);
    }
  }

  lemma SameRemainder(x: int, w: int, step: int)
    requires step >= 1 && w % step == 0
    ensures (x + w) % step == x % step
  {
    assert x == step * (x / step) + x % step && w == step * (w / step);
    assert step * (x / step) + step * (w / step) == step * (x / step + w / step);
    DivModOfSum(step, x / step + w / step, x % step);
  }

  lemma TimesLess(a: int, q: int, m: int)
    requires 1 <= a && q < m
    ensures a * q + a <= a * m
  {
    assert a * (m - q - 1) >= 0;
    assert a * m == a * q + a + a * (m - q - 1);
  }

  lemma OnlyMultiple(a: int, q: int, m: int)
    requires 1 <= a && a * q <= a * m < a * q + a
    ensures m == q
  {
    if m < q {
      TimesLess(a, m, q);
    } else if q < m {
      TimesLess(a, q, m);
    }
  }

  lemma DivOfMultiple(a: int, q: int)
    requires 1 <= a && 0 <= q
    ensures a * q / a == q
  {
    var n := a * q;
    assert n == a * (n / a) + n % a;
    if q < n / a {
      TimesLess(a, q, n / a);
    } else if n / a < q {
      TimesLess(a, n / a, q);
    }
  }

  lemma TimesNext(a: int, q: int)
    ensures a * (q + 1) == a * q + a
  {
  }
}
