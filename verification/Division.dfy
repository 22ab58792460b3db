/** Quotients and remainders by a positive divisor. */
module Division {

  lemma {:induction false} Multiple(d: int, s: int)
    requires s >= 1
    ensures d >= 1 ==> d * s >= s
    ensures d <= -1 ==> d * s <= -s
  {
    if d >= 1 {
      assert (d - 1) * s >= 0;
    } else if d <= -1 {
      assert (-1 - d) * s >= 0;
    }
  }

  /** A quotient is bounded by the multiples that enclose the dividend. */
  lemma {:induction false} QuotientBounds(x: int, s: int, low: int, high: int)
    requires s >= 1 && low * s <= x <= (high + 1) * s - 1
    ensures low <= x / s <= high && x == x / s * s + x % s && 0 <= x - x / s * s < s
  {
    var q := x / s;
    Multiple(q - low, s);
    Multiple(q - high, s);
    assert (q - low) * s == q * s - low * s && (q - high) * s == q * s - high * s;
  }

  lemma {:induction false} QuotientOf(q: int, s: int, y: int)
    requires 0 <= y < s
    ensures (q * s + y) / s == q && (q * s + y) % s == y
  {
    QuotientBounds(q * s + y, s, q, q);
  }

  lemma {:induction false} QuotientNatural(n: nat, d: nat)
    requires d > 0
    ensures n / d >= 0
  {
    var q := n / d;
    Multiple(q, d);
    assert n == q * d + n % d;
  }
}
