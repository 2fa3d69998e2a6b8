// Memory as a sequence of bytes, and the little-endian integers that C code
// reads and writes in it.
module Bytes {
  type byte = b: nat | b < 256

  const U16: nat := 0x1_0000
  const U32: nat := 0x1_0000_0000
  const U64: nat := 0x1_0000_0000_0000_0000

  // n is representable in k bytes.
  predicate Fits(n: nat, k: nat) {
    if k == 0 then n == 0 else Fits(n / 256, k - 1)
  }

  function Encode(n: nat, k: nat): (s: seq<byte>)
    ensures |s| == k
  {
    if k == 0 then [] else [n % 256] + Encode(n / 256, k - 1)
  }

  function Decode(s: seq<byte>): nat {
    if s == [] then 0 else s[0] + 256 * Decode(s[1..])
  }

  lemma {:induction false} DecodeEncode(n: nat, k: nat)
    requires Fits(n, k)
    ensures Decode(Encode(n, k)) == n
  {
    if k > 0 {
      DecodeEncode(n / 256, k - 1);
      assert Encode(n, k)[1..] == Encode(n / 256, k - 1);
    }
  }

  lemma {:induction false} Fits32(n: nat)
    requires n < U32
    ensures Fits(n, 4)
  {
    var a := n / 256;
    var b := a / 256;
    var c := b / 256;
    assert c / 256 == 0;
    assert Fits(c, 1) && Fits(b, 2) && Fits(a, 3);
  }

  lemma {:induction false} Fits64(n: nat)
    requires n < U64
    ensures Fits(n, 8)
  {
    var a := n / 256;
    var b := a / 256;
    var c := b / 256;
    var d := c / 256;
    assert d < U32;
    Fits32(d);
    assert Fits(c, 5) && Fits(b, 6) && Fits(a, 7);
  }

  // m with the bytes s written at address a.
  function Put(m: seq<byte>, a: nat, s: seq<byte>): (r: seq<byte>)
    requires a + |s| <= |m|
    ensures |r| == |m|
    ensures r[a..a + |s|] == s
    ensures forall x :: 0 <= x < |m| && !(a <= x < a + |s|) ==> r[x] == m[x]
  {
    m[..a] + s + m[a + |s|..]
  }

  // A window that the write does not meet reads as before.
  lemma {:induction false} PutElsewhere(m: seq<byte>, a: nat, s: seq<byte>, b: nat, n: nat)
    requires a + |s| <= |m| && b + n <= |m|
    requires a + |s| <= b || b + n <= a
    ensures Put(m, a, s)[b..b + n] == m[b..b + n]
  {
  }
}
