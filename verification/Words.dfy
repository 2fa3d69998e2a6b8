// Machine words as numbers, and the bitwise operators of C on their lowest
// n bits.
module Words {
  import opened Arithmetic

  predicate Bit(w: nat, k: nat) {
    if k == 0 then w % 2 == 1 else Bit(w / 2, k - 1)
  }

  function And(a: nat, b: nat, n: nat): nat {
    if n == 0 then 0 else (if a % 2 + b % 2 == 2 then 1 else 0) + 2 * And(a / 2, b / 2, n - 1)
  }

  function Or(a: nat, b: nat, n: nat): nat {
    if n == 0 then 0 else (if a % 2 + b % 2 > 0 then 1 else 0) + 2 * Or(a / 2, b / 2, n - 1)
  }

  function Xor(a: nat, b: nat, n: nat): nat {
    if n == 0 then 0 else (a % 2 + b % 2) % 2 + 2 * Xor(a / 2, b / 2, n - 1)
  }

  // Complement.
  function Not(a: nat, n: nat): nat {
    if n == 0 then 0 else 1 - a % 2 + 2 * Not(a / 2, n - 1)
  }

  lemma {:induction false} AndBit(a: nat, b: nat, n: nat, k: nat)
    requires k < n
    ensures Bit(And(a, b, n), k) <==> Bit(a, k) && Bit(b, k)
  {
    LowAndHigh(if a % 2 + b % 2 == 2 then 1 else 0, And(a / 2, b / 2, n - 1));
    if k > 0 { AndBit(a / 2, b / 2, n - 1, k - 1); }
  }

  lemma {:induction false} OrBit(a: nat, b: nat, n: nat, k: nat)
    requires k < n
    ensures Bit(Or(a, b, n), k) <==> Bit(a, k) || Bit(b, k)
  {
    LowAndHigh(if a % 2 + b % 2 > 0 then 1 else 0, Or(a / 2, b / 2, n - 1));
    if k > 0 { OrBit(a / 2, b / 2, n - 1, k - 1); }
  }

  lemma {:induction false} NotBit(a: nat, n: nat, k: nat)
    requires k < n
    ensures Bit(Not(a, n), k) <==> !Bit(a, k)
  {
    LowAndHigh(1 - a % 2, Not(a / 2, n - 1));
    if k > 0 { NotBit(a / 2, n - 1, k - 1); }
  }

  lemma {:induction false} LowAndHigh(d: nat, x: nat)
    requires d < 2
    ensures (d + 2 * x) % 2 == d && (d + 2 * x) / 2 == x
  {
  }

  // Exclusive or, bit by bit.
  lemma {:induction false} XorBit(a: nat, b: nat, n: nat, k: nat)
    requires k < n
    ensures Bit(Xor(a, b, n), k) <==> Bit(a, k) != Bit(b, k)
  {
    LowAndHigh((a % 2 + b % 2) % 2, Xor(a / 2, b / 2, n - 1));
    if k > 0 { XorBit(a / 2, b / 2, n - 1, k - 1); }
  }

  lemma {:induction false} XorDigit(d: nat, e: nat)
    requires d < 2 && e < 2
    ensures (d + (d + e) % 2) % 2 == e
  {
  }

  lemma {:induction false} XorTwice(a: nat, b: nat, n: nat)
    requires b < Pow2(n)
    ensures Xor(a, b, n) < Pow2(n) && Xor(a, Xor(a, b, n), n) == b
  {
    if n > 0 {
      XorTwice(a / 2, b / 2, n - 1);
      var d, x := (a % 2 + b % 2) % 2, Xor(a / 2, b / 2, n - 1);
      LowAndHigh(d, x);
      XorDigit(a % 2, b % 2);
      assert Xor(a, b, n) == d + 2 * x;
    }
  }

  // 1 << k
  lemma {:induction false} ShiftBit(k: nat, j: nat)
    ensures Bit(Pow2(k), j) <==> j == k
  {
    if k > 0 {
      if j > 0 { ShiftBit(k - 1, j - 1); }
    } else if j > 0 {
      NoBits(j - 1);
    }
  }

  lemma {:induction false} NoBits(k: nat)
    ensures !Bit(0, k)
  {
    if k > 0 { NoBits(k - 1); }
  }

  // (w & (1 << k)) >> k
  lemma {:induction false} TestValue(w: nat, n: nat, k: nat)
    requires k < n
    ensures And(w, Pow2(k), n) / Pow2(k) == if Bit(w, k) then 1 else 0
  {
    if k == 0 {
      AndZero(w / 2, n - 1);
      assert Pow2(0) / 2 == 0;
    } else {
      var p, r := Pow2(k - 1), And(w / 2, Pow2(k - 1), n - 1);
      TestValue(w / 2, n - 1, k - 1);
      assert Pow2(k) % 2 == 0 && Pow2(k) / 2 == p;
      assert And(w, Pow2(k), n) == 2 * r;
      HalfBoth(r, p);
    }
  }

  lemma {:induction false} AndZero(w: nat, n: nat)
    ensures And(w, 0, n) == 0
  {
    if n > 0 { AndZero(w / 2, n - 1); }
  }

  lemma {:induction false} HalfBoth(r: nat, p: nat)
    requires p > 0
    ensures 2 * r / (2 * p) == r / p
  {
    var q, m := r / p, r % p;
    assert r == p * q + m;
    assert 2 * r == q * (2 * p) + 2 * m;
    Quotient(2 * r, 2 * p, q, 2 * m);
  }

  // w |= 1 << k
  lemma {:induction false} SetBit(w: nat, n: nat, k: nat, j: nat)
    requires k < n && j < n
    ensures Bit(Or(w, Pow2(k), n), j) <==> Bit(w, j) || j == k
  {
    OrBit(w, Pow2(k), n, j);
    ShiftBit(k, j);
  }

  // w &= ~(1 << k)
  lemma {:induction false} ClearBit(w: nat, n: nat, k: nat, j: nat)
    requires k < n && j < n
    ensures Bit(And(w, Not(Pow2(k), n), n), j) <==> Bit(w, j) && j != k
  {
    AndBit(w, Not(Pow2(k), n), n, j);
    NotBit(Pow2(k), n, j);
    ShiftBit(k, j);
  }
}
