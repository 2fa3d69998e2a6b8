// Powers of two and quotients.
module Arithmetic {
  function Pow2(k: nat): (p: nat)
    ensures p > 0
  {
    if k == 0 then 1 else 2 * Pow2(k - 1)
  }

  lemma {:induction false} Division(x: nat, d: nat)
    requires d > 0
    ensures x == x / d * d + x % d && 0 <= x % d < d
  {
  }

  // Quotient and remainder are unique.
  lemma {:induction false} Quotient(x: nat, d: nat, q: int, r: nat)
    requires r < d && x == q * d + r
    ensures x / d == q && x % d == r
  {
    var y := x / d;
    var e := q - y;
    Division(x, d);
    assert e * d == q * d - y * d;
    if e >= 1 { AtLeast(e, d); }
    if e <= -1 { AtLeast(-e, d); }
  }

  lemma {:induction false} AtLeast(e: int, d: nat)
    requires e >= 1
    ensures e * d >= d
  {
  }
}
