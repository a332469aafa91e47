/** Quotients and remainders by a divisor that is not a constant. */
module Arith {

  lemma {:induction false} MulAtLeast(p: nat, d: nat)
    requires d >= 1
    ensures p * d >= p
  {
    if d > 1 {
      MulAtLeast(p, d - 1);
      assert p * d == p * (d - 1) + p;
    }
  }

  lemma DivModUnique(x: nat, q: nat, r: nat, p: nat)
    requires x == p * q + r && r < p
    ensures x / p == q && x % p == r
  {
    var q', r' := x / p, x % p;
    assert p * (q - q') == r' - r;
    if q > q' {
      MulAtLeast(p, q - q');
    } else if q < q' {
      MulAtLeast(p, q' - q);
    }
  }

  function CeilDiv(x: nat, p: nat): nat
    requires p >= 1
  {
    if x % p == 0 then x / p else x / p + 1
  }

  lemma CeilDivStep(x: nat, p: nat)
    requires p >= 1 && x > p
    ensures CeilDiv(x, p) == 1 + CeilDiv(x - p, p)
  {
    var q, r := (x - p) / p, (x - p) % p;
    assert x == p * (q + 1) + r;
    DivModUnique(x, q + 1, r, p);
  }

  lemma CeilDivSmall(x: nat, p: nat)
    requires 1 <= x <= p
    ensures CeilDiv(x, p) == 1
  {
    if x < p {
      DivModUnique(x, 0, x, p);
    } else {
      DivModUnique(x, 1, 0, p);
    }
  }
}
