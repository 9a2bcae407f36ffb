/** Facts about products and quotients that the solver does not find by itself. */
module Arithmetic {
  /** A product to reason about by `TimesNext` alone. */
  function Times(a: nat, b: nat): nat { a * b }

  lemma TimesNext(a: nat, b: nat)
    ensures Times(a + 1, b) == Times(a, b) + b && Times(0, b) == 0
  {}

  lemma TimesBelow(m: nat, n: nat, b: nat)
    requires m < n
    ensures Times(m, b) + b <= Times(n, b)
  {
    MulGrows(m, n, b);
  }

  lemma {:induction false} MulGrows(m: int, n: int, b: nat)
    requires m < n
    ensures m * b + b <= n * b
    decreases n - m
  {
    assert n * b == (n - 1) * b + b;
    if m < n - 1 {
      MulGrows(m, n - 1, b);
    }
  }

  lemma Quotient(x: int, q: int, r: int, b: nat)
    requires b > 0 && x == q * b + r && 0 <= r < b
    ensures x / b == q
  {
    var p := x / b;
    assert x == p * b + x % b;
    if p < q {
      MulGrows(p, q, b);
    } else if q < p {
      MulGrows(q, p, b);
    }
  }

  lemma DivStep(x: nat, b: nat)
    requires x >= b > 0
    ensures x / b == 1 + (x - b) / b
  {
    var q := (x - b) / b;
    assert (1 + q) * b == b + q * b;
    Quotient(x, 1 + q, (x - b) % b, b);
  }

  // ---------- Division, by its two defining facts ----------

  function Div(x: nat, b: nat): nat
    requires b > 0
  {
    x / b
  }

  function Mod(x: nat, b: nat): nat
    requires b > 0
  {
    x % b
  }

  lemma DivMod(x: nat, b: nat)
    requires b > 0
    ensures x == Times(Div(x, b), b) + Mod(x, b) && Mod(x, b) < b
  {}

  lemma DivUnique(x: nat, q: nat, r: nat, b: nat)
    requires b > 0 && x == Times(q, b) + r && r < b
    ensures Div(x, b) == q && Mod(x, b) == r
  {
    Quotient(x, q, r, b);
  }

  lemma TimesAdd(a: nat, c: nat, b: nat)
    ensures Times(a + c, b) == Times(a, b) + Times(c, b)
  {}

  lemma TimesDouble(a: nat, b: nat)
    ensures Times(a, 2 * b) == 2 * Times(a, b)
  {}
}
