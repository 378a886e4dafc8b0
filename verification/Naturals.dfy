/// Facts about natural numbers that the solver does not find by itself, and their maximum.
module Naturals {
  function Max(a: nat, b: nat): nat {
    if a < b then b else a
  }

  lemma ProductGrows(a: int, b: int, c: nat)
    requires a <= b
    ensures a * c <= b * c
  {
  }

  lemma DivisionIsUnique(n: nat, divisor: nat, q: int, r: nat)
    requires divisor > 0 && n == q * divisor + r && r < divisor
    ensures n / divisor == q && n % divisor == r
  {
    var d := n / divisor - q;
    assert n == n / divisor * divisor + n % divisor;
    assert d * divisor == r - n % divisor;
    if d > 0 { ProductGrows(1, d, divisor); }
    if d < 0 { ProductGrows(d, -1, divisor); }
  }
}
