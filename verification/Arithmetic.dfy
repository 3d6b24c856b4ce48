/** Facts about products and quotients that more than one component needs. */
module Arithmetic {
  lemma TimesMonotone(a: nat, b: nat, n: nat)
    ensures a <= b ==> a * n <= b * n
  {}

  /** As many objects as fit, made as large as still fits: at least as large as before, and there are two or more. */
  lemma DivTwice(a: nat, g: nat)
    requires 0 < g && 2 * g <= a
    ensures a / g >= 2 && g <= a / (a / g) <= a / 2
  {
    var n := a / g;
    assert a == n * g + a % g;
    TimesMonotone(n, 1, g);
    var q := a / n;
    assert a == q * n + a % n;
    TimesMonotone(q + 1, g, n);
    assert (q + 1) * n == q * n + n;
    TimesMonotone(2, n, q);
  }
}
