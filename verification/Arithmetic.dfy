// Division facts the solver does not find by itself.
module Arithmetic {

  lemma {:induction false} Multiples(m: nat, a: nat, b: nat)
    requires a < b
    ensures m * b >= m * a + m
    decreases b - a
  {
    if a + 1 < b { Multiples(m, a + 1, b); }
    assert m * (a + 1) == m * a + m;
  }

  lemma TimesGrows(x: nat, a: int, b: int)
    requires a <= b
    ensures a * x <= b * x && x * a <= x * b
  {
    assert b * x == a * x + (b - a) * x;
  }

  lemma Remainder(x: nat, m: nat, q: nat, r: nat)
    requires m > 0 && x == m * q + r && r < m
    ensures x % m == r && x / m == q
  {
    var q' := x / m;
    assert x == m * q' + x % m;
    if q > q' { Multiples(m, q', q); }
    if q < q' { Multiples(m, q, q'); }
  }

  lemma WrapNext(m: nat, x: nat)
    requires m > 0
    ensures (x + 1) % m == if x % m + 1 == m then 0 else x % m + 1
  {
    var q, r := x / m, x % m;
    assert x == m * q + r;
    if r + 1 == m {
      assert x + 1 == m * (q + 1);
      Remainder(x + 1, m, q + 1, 0);
    } else {
      Remainder(x + 1, m, q, r + 1);
    }
  }
}
