/**
 Division with remainder.
 */
module Arithmetic {
  lemma NoMultiple(g: nat, d: int)
    ensures d >= 1 ==> g * d >= g
    ensures d <= -1 ==> g * d <= -(g as int)
  {
    if d >= 1 {
      assert g * d == g + g * (d - 1);
    } else if d <= -1 {
      assert g * d == -(g as int) + g * (d + 1);
    }
  }

  lemma DivMod(n: nat, g: nat)
    requires g > 0
    ensures n == g * (n / g) + n % g && n % g < g
  {
  }

  lemma Distribute(g: int, a: int, b: int)
    ensures g * (a + b) == g * a + g * b && g * (a - b) == g * a - g * b
    ensures (a + b) * g == a * g + b * g
  {
  }

  /** Quotient and remainder are unique. */
  lemma Division(n: nat, g: nat, q: nat, r: nat)
    requires g > 0 && n == g * q + r && r < g
    ensures n / g == q && n % g == r
  {
    DivMod(n, g);
    NoMultiple(g, q - n / g);
    Distribute(g, q, n / g);
  }
}
