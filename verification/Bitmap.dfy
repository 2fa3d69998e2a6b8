// The bitmap of src/lib/bitmap.c: words of 32 bits that stand for a sequence of
// booleans.
module Bitmap {
  import opened Arithmetic
  import opened Words
  import opened Common

  const OK: int := 0

  // b with the bits n, ..., k set to v; the range includes k.
  function WithRange(b: seq<bool>, n: nat, k: nat, v: bool): (r: seq<bool>)
    ensures |r| == |b| && forall j :: 0 <= j < |b| ==> r[j] == if n <= j <= k then v else b[j]
  {
    seq(|b|, j requires 0 <= j < |b| => if n <= j <= k then v else b[j])
  }

  // len equal bits from s on.
  predicate RunAt(b: seq<bool>, s: nat, len: nat, v: bool) {
    s + len <= |b| && forall j :: s <= j < s + len ==> b[j] == v
  }

  class Bits {
    const bits: array<nat>
    // Capacity in bits.
    const len: nat

    ghost predicate Valid()
      reads this
    {
      len == 32 * bits.Length <= 0x8000_0000
    }

    ghost function View(): (b: seq<bool>)
      requires Valid()
      reads this, bits
      ensures |b| == len && forall j :: 0 <= j < len ==> b[j] == Bit(bits[j / 32], j % 32)
    {
      seq(len, j requires 0 <= j < len reads this, bits => Bit(bits[j / 32], j % 32))
    }

    // bm_alloc_bitmap: room for nmemb bits, all of them clear.
    constructor (nmemb: nat)
      requires 0 < nmemb <= 0x7fff_ffe0
      ensures Valid() && fresh(bits) && nmemb <= len < nmemb + 32
      ensures forall j :: 0 <= j < len ==> !View()[j]
    {
      var words := if nmemb % 32 != 0 then nmemb / 32 + 1 else nmemb / 32;
      len := words * 32;
      bits := new nat[words](_ => 0);
      new;
      forall j | 0 <= j < len ensures !View()[j] { NoBits(j % 32); }
    }

    // bits[n / 32] |= 1 << (n % 32)
    method Raise(n: nat)
      requires Valid() && n < len
      modifies bits
      ensures View() == WithRange(old(View()), n, n, true)
    {
      bits[n / 32] := Or(bits[n / 32], Pow2(n % 32), 32);
      forall j | 0 <= j < len ensures View()[j] == WithRange(old(View()), n, n, true)[j] {
        if j / 32 == n / 32 { SetBit(old(bits[n / 32]), 32, n % 32, j % 32); }
      }
    }

    // bits[n / 32] &= ~(1 << (n % 32))
    method Lower(n: nat)
      requires Valid() && n < len
      modifies bits
      ensures View() == WithRange(old(View()), n, n, false)
    {
      bits[n / 32] := And(bits[n / 32], Not(Pow2(n % 32), 32), 32);
      forall j | 0 <= j < len ensures View()[j] == WithRange(old(View()), n, n, false)[j] {
        if j / 32 == n / 32 { ClearBit(old(bits[n / 32]), 32, n % 32, j % 32); }
      }
    }

    // (bits[n / 32] & (1 << (n % 32))) >> (n % 32)
    method Test(n: nat) returns (v: nat)
      requires Valid() && n < len
      ensures v == if View()[n] then 1 else 0
    {
      TestValue(bits[n / 32], 32, n % 32);
      v := And(bits[n / 32], Pow2(n % 32), 32) / Pow2(n % 32);
    }

    // bm_set_bit. Its guard compares a word index with the length in bits, so it
    // lets bits through that do not exist: for those the program stores outside
    // the bitmap, which the model reports instead.
    method BmSetBit(n: nat) returns (r: int, outside: bool)
      requires Valid()
      modifies bits
      ensures outside <==> len <= n < 32 * (len + 1)
      ensures r == if n < 32 * (len + 1) then OK else -E2BIG
      ensures View() == if n < len then WithRange(old(View()), n, n, true) else old(View())
    {
      if n / 32 > len { return -E2BIG, false; }
      outside := n / 32 >= bits.Length;
      if !outside { Raise(n); }
      r := OK;
    }

    // bm_set_range
    method BmSetRange(n: nat, k: nat) returns (r: int)
      requires Valid()
      modifies bits
      ensures r == if n >= len || k >= len then -E2BIG else OK
      ensures View() == if r == OK then WithRange(old(View()), n, k, true) else old(View())
    {
      if n >= len || k >= len { return -E2BIG; }
      var i := n;
      while i <= k
        invariant n <= i && (i <= k + 1 || i == n)
        invariant forall j :: 0 <= j < len ==> View()[j] == if n <= j < i then true else old(View())[j]
      {
        Raise(i);
        i := i + 1;
      }
      r := OK;
      assert View() == WithRange(old(View()), n, k, true);
    }

    // bm_unset_range
    method BmUnsetRange(n: nat, k: nat) returns (r: int)
      requires Valid()
      modifies bits
      ensures r == if n >= len || k >= len then -E2BIG else OK
      ensures View() == if r == OK then WithRange(old(View()), n, k, false) else old(View())
    {
      if n >= len || k >= len { return -E2BIG; }
      var i := n;
      while i <= k
        invariant n <= i && (i <= k + 1 || i == n)
        invariant forall j :: 0 <= j < len ==> View()[j] == if n <= j < i then false else old(View())[j]
      {
        Lower(i);
        i := i + 1;
      }
      r := OK;
      assert View() == WithRange(old(View()), n, k, false);
    }

    // bm_find_first: the least bit of [n, k] with the given value.
    method BmFindFirst(n: nat, k: nat, v: bool) returns (r: int)
      requires Valid()
      ensures n >= len || k >= len ==> r == -E2BIG
      ensures n < len && k < len ==>
        if exists j :: n <= j <= k && View()[j] == v then
          n <= r <= k && View()[r] == v && forall j :: n <= j < r ==> View()[j] != v
        else r == -ENOENT
    {
      if n >= len || k >= len { return -E2BIG; }
      var i := n;
      while i <= k
        invariant n <= i && (i <= k + 1 || i == n)
        invariant forall j :: n <= j < i ==> View()[j] != v
      {
        var bit := Test(i);
        if bit == (if v then 1 else 0) { return i; }
        i := i + 1;
      }
      r := -ENOENT;
    }

    // bm_find_first_range: the least start of len_ equal bits inside [n, k]; a
    // length of zero is never found.
    method BmFindFirstRange(n: nat, k: nat, run: nat, v: bool) returns (r: int)
      requires Valid()
      ensures n >= len || k >= len ==> r == -E2BIG
      ensures n < len && k < len && run == 0 ==> r == -ENOENT
      ensures n < len && k < len && run > 0 ==> IsFirstRun(View(), n, k, run, v, r)
    {
      if n >= len || k >= len { return -E2BIG; }
      var i, start, cur := n, -ENOENT, 0;
      while i <= k
        invariant n <= i && (i <= k + 1 || i == n)
        invariant start == -ENOENT ==> cur == 0
        invariant start != -ENOENT ==> n <= start < i && cur == i - start && (run > 0 ==> cur < run)
        invariant start != -ENOENT ==> forall j :: start <= j < i ==> View()[j] == v
        invariant AllBroken(View(), n, if start == -ENOENT then i else start, i, run, v)
      {
        var bit := Test(i);
        ghost var from := if start == -ENOENT then i else start;
        if bit == (if v then 1 else 0) {
          if start == -ENOENT { start := i; }
          cur := cur + 1;
          if cur == run {
            FirstRunFound(View(), n, k, start, i, run, v);
            return start;
          }
        } else {
          start := -ENOENT;
          cur := 0;
        }
        i := i + 1;
        Spoilt(View(), n, from, i, run, v);
      }
      if run > 0 { NoRunFound(View(), n, k, if start == -ENOENT then i else start, i, run, v); }
      r := -ENOENT;
    }
  }

  // r is the least start of run bits inside [n, k] that equal v, or -ENOENT
  // when there is none.
  ghost predicate IsFirstRun(b: seq<bool>, n: nat, k: nat, run: nat, v: bool, r: int) {
    if exists s: nat :: n <= s && s + run <= k + 1 && RunAt(b, s, run, v) then
      && n <= r && r + run <= k + 1 && RunAt(b, r, run, v)
      && forall s: nat :: n <= s < r ==> !RunAt(b, s, run, v)
    else r == -ENOENT
  }

  // No run of length run starts at s: a bit before i spoils it.
  ghost predicate Broken(b: seq<bool>, s: nat, i: nat, run: nat, v: bool) {
    run == 0 || exists j :: s <= j < s + run && j < i && j < |b| && b[j] != v
  }

  ghost predicate AllBroken(b: seq<bool>, n: nat, to: nat, i: nat, run: nat, v: bool) {
    forall s: nat :: n <= s < to ==> Broken(b, s, i, run, v)
  }

  // One more bit keeps the spoilt starts; a bit of the other value spoils all
  // starts of the current run, which is shorter than run.
  lemma {:induction false} Spoilt(b: seq<bool>, n: nat, start: nat, i: nat, run: nat, v: bool)
    requires 0 < i <= |b| && n <= start < i && AllBroken(b, n, start, i - 1, run, v)
    requires run > 0 ==> i - 1 - start < run
    ensures AllBroken(b, n, start, i, run, v)
    ensures b[i - 1] != v ==> AllBroken(b, n, i, i, run, v)
  {
    forall s: nat | n <= s < start ensures Broken(b, s, i, run, v) { assert Broken(b, s, i - 1, run, v); }
    if b[i - 1] != v {
      forall s: nat | start <= s < i ensures Broken(b, s, i, run, v) { assert b[i - 1] != v; }
    }
  }

  lemma {:induction false} NoneBefore(b: seq<bool>, n: nat, start: nat, i: nat, run: nat, v: bool)
    requires run > 0 && AllBroken(b, n, start, i, run, v)
    ensures forall s: nat :: n <= s < start ==> !RunAt(b, s, run, v)
  {
    forall s: nat | n <= s < start ensures !RunAt(b, s, run, v) { assert Broken(b, s, i, run, v); }
  }

  lemma {:induction false} FirstRunFound(b: seq<bool>, n: nat, k: nat, start: nat, i: nat, run: nat, v: bool)
    requires run > 0 && AllBroken(b, n, start, i, run, v) && n <= start && start + run == i + 1 <= k + 1 <= |b|
    requires forall j :: start <= j <= i ==> b[j] == v
    ensures IsFirstRun(b, n, k, run, v, start)
  {
    NoneBefore(b, n, start, i, run, v);
    assert RunAt(b, start, run, v);
  }

  lemma {:induction false} NoRunFound(b: seq<bool>, n: nat, k: nat, start: nat, i: nat, run: nat, v: bool)
    requires run > 0 && AllBroken(b, n, start, i, run, v) && n <= start && k < |b| && k < i < start + run
    ensures IsFirstRun(b, n, k, run, v, -ENOENT)
  {
    NoneBefore(b, n, start, i, run, v);
  }
}
