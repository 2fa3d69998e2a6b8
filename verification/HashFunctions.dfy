// The hash functions of src/lib/hashmap.c, on 32-bit words as numbers.
module HashFunctions {
  import opened Arithmetic
  import opened Words
  import HashMap

  const WORD: nat := 0x1_0000_0000
  // Bits of half a word.
  const HALF: nat := 16

  // (x >> 16) ^ x
  function Mix(x: nat): nat {
    x / 0x1_0000 * 0x1_0000 + Xor(x / 0x1_0000, x % 0x1_0000, HALF)
  }

  // x * 0x45d9f3b in 32 bits
  function Times(x: nat): nat {
    x * 0x45d9f3b % WORD
  }

  // hm_hash_num of the number that the key points to.
  function HashNum(k: nat): nat {
    Mix(Times(Mix(Times(Mix(k)))))
  }

  // 0x119de1f3 inverts the multiplier.
  function Untimes(x: nat): nat {
    x * 0x119de1f3 % WORD
  }

  // The number with a given hash.
  function NumOf(h: nat): nat {
    Mix(Untimes(Mix(Untimes(Mix(h)))))
  }

  lemma {:induction false} PowHalf()
    ensures Pow2(HALF) == 0x1_0000
  {
    assert Pow2(4) == 16 && Pow2(8) == 256 && Pow2(12) == 4096;
  }

  lemma {:induction false} MixTwice(x: nat)
    requires x < WORD
    ensures Mix(x) < WORD && Mix(Mix(x)) == x
  {
    var hi, lo := x / 0x1_0000, x % 0x1_0000;
    PowHalf();
    XorTwice(hi, lo, HALF);
    Halves(hi, Xor(hi, lo, HALF));
    Halves(hi, lo);
    assert Mix(x) == hi * 0x1_0000 + Xor(hi, lo, HALF);
  }

  // Bit by bit: each bit below 16 is joined with the one 16 places above.
  lemma {:induction false} MixBit(x: nat, k: nat)
    requires x < WORD && k < HALF + HALF
    ensures Bit(Mix(x), k) <==> if k < HALF then Bit(x, k) != Bit(x, k + HALF) else Bit(x, k)
  {
    PowHalf();
    MixedBit(x / 0x1_0000, x % 0x1_0000, HALF, k);
  }

  lemma {:induction false} MixedBit(hi: nat, lo: nat, n: nat, k: nat)
    requires lo < Pow2(n)
    ensures Bit(hi * Pow2(n) + Xor(hi, lo, n), k) <==>
      if k < n then Bit(hi * Pow2(n) + lo, k) != Bit(hi * Pow2(n) + lo, k + n) else Bit(hi * Pow2(n) + lo, k)
  {
    XorTwice(hi, lo, n);
    BitParts(hi, lo, n, k);
    BitParts(hi, Xor(hi, lo, n), n, k);
    if k < n {
      XorBit(hi, lo, n, k);
      BitParts(hi, lo, n, k + n);
    }
  }

  // The number hi << n | lo.
  lemma {:induction false} BitParts(hi: nat, lo: nat, n: nat, k: nat)
    requires lo < Pow2(n)
    ensures Bit(hi * Pow2(n) + lo, k) <==> if k < n then Bit(lo, k) else Bit(hi, k - n)
  {
    if n > 0 {
      var x := hi * Pow2(n - 1) + lo / 2;
      assert hi * Pow2(n) == 2 * (hi * Pow2(n - 1));
      assert hi * Pow2(n) + lo == lo % 2 + 2 * x;
      LowAndHigh(lo % 2, x);
      if k > 0 { BitParts(hi, lo / 2, n - 1, k - 1); }
    }
  }

  lemma {:induction false} Halves(hi: nat, lo: nat)
    requires lo < 0x1_0000
    ensures (hi * 0x1_0000 + lo) / 0x1_0000 == hi && (hi * 0x1_0000 + lo) % 0x1_0000 == lo
  {
  }

  lemma {:induction false} Residue(y: int, x: nat, k: int)
    requires y == x + WORD * k && x < WORD
    ensures y % WORD == x
  {
  }

  // The product of the two multipliers is 0x4ce8d8 * WORD + 1.
  lemma {:induction false} Inverse(x: int, q: int, r: int)
    requires x * 0x45d9f3b == q * WORD + r
    ensures r * 0x119de1f3 == x + WORD * (x * 0x4ce8d8 - q * 0x119de1f3)
  {
  }

  lemma {:induction false} InverseForth(x: int, q: int, r: int)
    requires x * 0x119de1f3 == q * WORD + r
    ensures r * 0x45d9f3b == x + WORD * (x * 0x4ce8d8 - q * 0x45d9f3b)
  {
  }

  lemma {:induction false} TimesBack(x: nat)
    requires x < WORD
    ensures Times(x) < WORD && Untimes(Times(x)) == x
  {
    var y := x * 0x45d9f3b;
    Division(y, WORD);
    Inverse(x, y / WORD, y % WORD);
    Residue(y % WORD * 0x119de1f3, x, x * 0x4ce8d8 - y / WORD * 0x119de1f3);
  }

  lemma {:induction false} TimesForth(x: nat)
    requires x < WORD
    ensures Untimes(x) < WORD && Times(Untimes(x)) == x
  {
    var y := x * 0x119de1f3;
    Division(y, WORD);
    InverseForth(x, y / WORD, y % WORD);
    Residue(y % WORD * 0x45d9f3b, x, x * 0x4ce8d8 - y / WORD * 0x45d9f3b);
  }

  lemma {:induction false} NumOfHash(k: nat)
    requires k < WORD
    ensures HashNum(k) < WORD && NumOf(HashNum(k)) == k
  {
    MixTwice(k);
    TimesBack(Mix(k));
    var a := Times(Mix(k));
    MixTwice(a);
    TimesBack(Mix(a));
    MixTwice(Times(Mix(a)));
  }

  lemma {:induction false} HashOfNum(h: nat)
    requires h < WORD
    ensures NumOf(h) < WORD && HashNum(NumOf(h)) == h
  {
    MixTwice(h);
    TimesForth(Mix(h));
    var a := Untimes(Mix(h));
    MixTwice(a);
    TimesForth(Mix(a));
    MixTwice(Untimes(Mix(a)));
  }

  // hm_hash_num is a bijection on 32-bit words: equal hashes mean equal
  // numbers, and exactly one number, the one that hashes to UINT32_MAX, is
  // refused.
  lemma {:induction false} HashNumBijective(k: nat, l: nat)
    requires k < WORD && l < WORD
    ensures HashNum(k) == HashNum(l) <==> k == l
    ensures HashNum(k) == HashMap.REFUSED <==> k == NumOf(HashMap.REFUSED)
  {
    NumOfHash(k);
    NumOfHash(l);
    HashOfNum(HashMap.REFUSED);
  }

  // hm_hash_str of a string, given by its (signed) characters.
  function HashStr(s: seq<int>): nat {
    if s == [] then 5381 else (HashStr(s[..|s| - 1]) * 33 + s[|s| - 1]) % WORD
  }

  // Powers of 33, and a string as a number in that base.
  function Power(n: nat): int {
    if n == 0 then 1 else 33 * Power(n - 1)
  }

  function Weight(s: seq<int>): int {
    if s == [] then 0 else s[0] * Power(|s| - 1) + Weight(s[1..])
  }

  // Main result: the hash is the number of the string in base 33 behind the
  // digit 5381.
  lemma {:induction false} HashStrIs(s: seq<int>)
    ensures HashStr(s) == (5381 * Power(|s|) + Weight(s)) % WORD
  {
    if s != [] {
      var t, c := s[..|s| - 1], s[|s| - 1];
      HashStrIs(t);
      LastWeight(t, c);
      assert t + [c] == s;
      var x := 5381 * Power(|t|) + Weight(t);
      ModStep(x, c);
      assert x * 33 + c == 5381 * Power(|s|) + Weight(s);
    }
  }

  lemma {:induction false} LastWeight(t: seq<int>, c: int)
    ensures Weight(t + [c]) == 33 * Weight(t) + c
  {
    if t == [] {
      assert t + [c] == [c];
    } else {
      assert (t + [c])[1..] == t[1..] + [c];
      LastWeight(t[1..], c);
      assert t[0] * Power(|t|) == 33 * (t[0] * Power(|t| - 1));
    }
  }

  // The hash of "devfs".
  lemma {:induction false} HashOfDevfs()
    ensures HashStr([100, 101, 118, 102, 115]) == 256505949
  {
    assert Weight([100, 101, 118, 102, 115]) == 100 * 1185921 + 101 * 35937 + 118 * 1089 + 102 * 33 + 115;
    HashStrIs([100, 101, 118, 102, 115]);
  }

  // hm_hash_str is not injective: two strings collide whenever the first of
  // their last two characters goes up by one and the second down by 33.
  lemma {:induction false} HashStrCollisions(s: seq<int>, a: int, b: int)
    ensures HashStr(s + [a, b]) == HashStr(s + [a + 1, b - 33])
  {
    LastTwo(s, a, b);
    LastTwo(s, a + 1, b - 33);
  }

  lemma {:induction false} LastTwo(s: seq<int>, a: int, b: int)
    ensures HashStr(s + [a, b]) == ((HashStr(s) * 33 + a) * 33 + b) % WORD
  {
    assert (s + [a, b])[..|s| + 1] == s + [a] && (s + [a])[..|s|] == s;
    ModStep(HashStr(s) * 33 + a, b);
  }

  lemma {:induction false} ModStep(x: int, b: int)
    ensures (x % WORD * 33 + b) % WORD == (x * 33 + b) % WORD
  {
    assert x * 33 + b == WORD * (x / WORD * 33) + (x % WORD * 33 + b);
  }
}
