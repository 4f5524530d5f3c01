/**
 * Facts about multiplication and integer division on naturals that the timer and the
 * byte formatter lean on, each proved in a few linear steps.
 */
module Arithmetic {

  lemma MultiplyMonotone(a: nat, b: nat, d: nat)
    requires a <= b
    ensures a * d <= b * d
  {
  }

  /** A larger factor gives a product larger by at least the other factor. */
  lemma {:induction false} MultiplyStep(a: nat, b: nat, d: nat)
    requires a < b
    ensures a * d + d <= b * d
  {
    var k := b - a;
    assert b * d == a * d + k * d;
    assert k * d >= d by { MultiplyMonotone(1, k, d); }
  }

  /** Integer division brackets the dividend between two multiples of the divisor. */
  lemma DivisionBracket(n: nat, d: nat)
    requires d > 0
    ensures (n / d) * d <= n < (n / d) * d + d
  {
  }

  /** A quotient and remainder that rebuild `n` are the ones division yields. */
  lemma {:induction false} DivisionIsUnique(n: nat, d: nat, q: nat, r: nat)
    requires d > 0 && r < d && n == q * d + r
    ensures n / d == q
  {
    var q' := n / d;
    DivisionBracket(n, d);
    if q' < q {
      MultiplyStep(q', q, d);
    } else if q < q' {
      MultiplyStep(q, q', d);
    }
  }

  /** Adding a multiple of `d` adds its quotient. */
  lemma {:induction false} DivideAfterMultiple(a: nat, b: nat, d: nat)
    requires d > 0
    ensures (a * d + b) / d == a + b / d
  {
    var q := b / d;
    DivisionBracket(b, d);
    var r := b - q * d;
    assert (a + q) * d == a * d + q * d;
    DivisionIsUnique(a * d + b, d, a + q, r);
  }

  /** From `m * d` on, the quotient by `d` is at least `m`. */
  lemma {:induction false} DivideLowerBound(n: nat, d: nat, m: nat)
    requires d > 0 && m * d <= n
    ensures n / d >= m
  {
    DivisionBracket(n, d);
    if n / d < m {
      MultiplyStep(n / d, m, d);
    }
  }

  /** Below `m * d`, the quotient by `d` is below `m`. */
  lemma {:induction false} DivideUpperBound(n: nat, d: nat, m: nat)
    requires d > 0 && n < m * d
    ensures n / d < m
  {
    DivisionBracket(n, d);
    if n / d >= m {
      MultiplyMonotone(m, n / d, d);
    }
  }

  /** Dividing by `p` and then by `c` is dividing by `p * c`. */
  lemma {:induction false} DivideTwice(n: nat, p: nat, c: nat)
    requires p > 0 && c > 0
    ensures n / p / c == n / (p * c)
  {
    var q := n / p;
    DivisionBracket(n, p);
    var r := n - q * p;
    var q2 := q / c;
    DivisionBracket(q, c);
    var r2 := q - q2 * c;
    assert q * p == q2 * (p * c) + r2 * p by {
      assert q == q2 * c + r2;
      assert (q2 * c + r2) * p == q2 * c * p + r2 * p;
    }
    assert r2 * p + r < p * c by {
      MultiplyMonotone(r2, c - 1, p);
      assert (c - 1) * p == c * p - p;
    }
    DivisionIsUnique(n, p * c, q2, r2 * p + r);
  }
}
