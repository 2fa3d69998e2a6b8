// How __claim_range of src/mm/page.c cuts a range of memory into blocks.
module ClaimedRanges {
  import opened FrameLists
  import opened Arithmetic
  import opened Common

  // A block by first page and order.
  datatype Claim = Claim(start: nat, order: nat)

  // Bytes of a block of order o.
  function Bytes(o: nat): (b: nat)
    ensures b > 0
  {
    Pow2(o) * PAGE_SIZE
  }

  // How far, in blocks, the start has moved after b blocks of one order: it
  // advances by 1, 2, 3, ... blocks.
  function Skip(b: nat): nat {
    if b == 0 then 0 else Skip(b - 1) + b
  }

  lemma {:induction false} SkipStep(b: nat, o: nat)
    ensures Skip(b + 1) * Pow2(o) == Skip(b) * Pow2(o) + (b + 1) * Pow2(o)
    ensures (b + 1) * Bytes(o) == PAGE_SIZE * ((b + 1) * Pow2(o))
  {
  }

  // The inner loop: the blocks of order o from the b-th to the last of num.
  function SameOrder(p: nat, o: nat, num: nat, b: nat): seq<Claim>
    requires b <= num
    decreases num - b
  {
    if b == num then [] else [Claim(p, o)] + SameOrder(p + (b + 1) * Pow2(o), o, num, b + 1)
  }

  // The outer loop over the orders below n, for len bytes from page p on.
  function Cut(p: nat, len: nat, n: nat): seq<Claim>
    decreases len, n
  {
    if n == 0 then [] else
      var num := len / Bytes(n - 1);
      if num > 0 then
        SameOrder(p, n - 1, num, 0) + Cut(p + Skip(num) * Pow2(n - 1), len % Bytes(n - 1), n - 1)
      else
        Cut(p, len, n - 1)
  }

  // After the num blocks of order o, rem bytes are left from page q on.
  predicate CutAt(p: nat, len: nat, o: nat, num: nat, q: nat, rem: nat) {
    num == len / Bytes(o) && rem == len % Bytes(o) && q == p + Skip(num) * Pow2(o)
  }

  lemma {:induction false} CutStep(p: nat, len: nat, o: nat, n: nat, num: nat, q: nat, rem: nat)
    requires n == o + 1 && CutAt(p, len, o, num, q, rem)
    ensures Cut(p, len, n) == if num == 0 then Cut(p, len, o) else SameOrder(p, o, num, 0) + Cut(q, rem, o)
  {
  }

  // The blocks follow each other without gap from page p to page e.
  predicate Tile(cs: seq<Claim>, p: nat, e: nat) {
    if cs == [] then p == e else cs[0].start == p && Tile(cs[1..], p + Pow2(cs[0].order), e)
  }

  ghost predicate Descending(cs: seq<Claim>, n: nat) {
    && (forall i :: 0 <= i < |cs| ==> cs[i].order < n)
    && (forall i, j :: 0 <= i < j < |cs| ==> cs[i].order > cs[j].order)
  }

  // One step of the outer loop when at most one block of this order fits.
  lemma {:induction false} CutOnce(p: nat, len: nat, n: nat)
    requires n > 0 && len < 2 * Bytes(n - 1)
    ensures Cut(p, len, n) == if len < Bytes(n - 1) then Cut(p, len, n - 1)
      else [Claim(p, n - 1)] + Cut(p + Pow2(n - 1), len - Bytes(n - 1), n - 1)
  {
    var b := Bytes(n - 1);
    if len < b {
      assert len / b == 0;
    } else {
      assert len / b == 1 && len % b == len - b by { DivOnce(len, b); }
      assert SameOrder(p + 1 * Pow2(n - 1), n - 1, 1, 1) == [];
      assert SameOrder(p, n - 1, 1, 0) == [Claim(p, n - 1)];
      assert Skip(1) == 1;
    }
  }

  lemma {:induction false} DivOnce(x: nat, b: nat)
    requires 0 < b <= x < 2 * b
    ensures x / b == 1 && x % b == x - b
  {
  }

  // Below twice the largest block the pieces tile the whole pages of the
  // range, largest first.
  lemma {:induction false} CutTiles(p: nat, len: nat, n: nat)
    requires len < Bytes(n)
    ensures Tile(Cut(p, len, n), p, p + len / PAGE_SIZE) && Descending(Cut(p, len, n), n)
  {
    TilesTo(p, len, n, p + len / PAGE_SIZE, Cut(p, len, n));
  }

  lemma {:induction false} TilesTo(p: nat, len: nat, n: nat, e: nat, cs: seq<Claim>)
    requires len < Bytes(n) && e == p + len / PAGE_SIZE && cs == Cut(p, len, n)
    decreases n
    ensures Tile(cs, p, e) && Descending(cs, n)
  {
    if n == 0 {
      NoPages(len);
    } else if len < Bytes(n - 1) {
      CutOnce(p, len, n);
      TilesTo(p, len, n - 1, e, cs);
    } else {
      var q, l, rest := FirstPiece(p, len, n, e, cs);
      TilesTo(q, l, n - 1, e, rest);
      LargestFirst(cs, Claim(p, n - 1), rest, e, n);
    }
  }

  lemma {:induction false} FirstPiece(p: nat, len: nat, n: nat, e: nat, cs: seq<Claim>)
    returns (q: nat, l: nat, rest: seq<Claim>)
    requires n > 0 && Bytes(n - 1) <= len < Bytes(n) && e == p + len / PAGE_SIZE && cs == Cut(p, len, n)
    ensures q == p + Pow2(n - 1) && l < Bytes(n - 1) && e == q + l / PAGE_SIZE
    ensures rest == Cut(q, l, n - 1) && cs == [Claim(p, n - 1)] + rest
  {
    q, l := p + Pow2(n - 1), len - Bytes(n - 1);
    rest := Cut(q, l, n - 1);
    CutOnce(p, len, n);
    PagesOf(len, n - 1);
  }

  lemma {:induction false} NoPages(len: nat)
    requires len < Bytes(0)
    ensures len / PAGE_SIZE == 0
  {
  }

  lemma {:induction false} LargestFirst(cs: seq<Claim>, c: Claim, rest: seq<Claim>, e: nat, n: nat)
    requires n > 0 && c.order == n - 1 && cs == [c] + rest
    requires Tile(rest, c.start + Pow2(c.order), e) && Descending(rest, n - 1)
    ensures Tile(cs, c.start, e) && Descending(cs, n)
  {
    assert cs[1..] == rest;
  }

  predicate HasOrder(cs: seq<Claim>, j: nat) {
    exists i :: 0 <= i < |cs| && cs[i].order == j
  }

  // The orders of the pieces are the set bits of the page count.
  lemma {:induction false} CutBits(p: nat, len: nat, n: nat, j: nat)
    requires len < Bytes(n) && j < n
    decreases n
    ensures HasOrder(Cut(p, len, n), j) <==> len / PAGE_SIZE / Pow2(j) % 2 == 1
  {
    CutOnce(p, len, n);
    PagesOf(len, n - 1);
    var q := if len < Bytes(n - 1) then p else p + Pow2(n - 1);
    var l := if len < Bytes(n - 1) then len else len - Bytes(n - 1);
    var rest := Cut(q, l, n - 1);
    CutTiles(q, l, n - 1);
    if len >= Bytes(n - 1) {
      var cs := Cut(p, len, n);
      assert cs[0].order == n - 1;
      FirstOrRest(cs, rest, j);
    }
    if j < n - 1 {
      CutBits(q, l, n - 1, j);
      if len >= Bytes(n - 1) { BitBelow(len / PAGE_SIZE, n - 1, j); }
    } else if len >= Bytes(n - 1) {
      DivOnce(len / PAGE_SIZE, Pow2(j));
    } else {
      Quotient(len / PAGE_SIZE, Pow2(j), 0, len / PAGE_SIZE);
    }
  }

  lemma {:induction false} FirstOrRest(cs: seq<Claim>, rest: seq<Claim>, j: nat)
    requires |cs| == |rest| + 1 && cs[1..] == rest
    ensures HasOrder(cs, j) <==> cs[0].order == j || HasOrder(rest, j)
  {
    if HasOrder(rest, j) {
      var i :| 0 <= i < |rest| && rest[i].order == j;
      assert cs[i + 1].order == j;
    }
    if HasOrder(cs, j) && cs[0].order != j {
      var i :| 0 <= i < |cs| && cs[i].order == j;
      assert rest[i - 1].order == j;
    }
  }

  // Page counts of a length below twice a block.
  lemma {:induction false} PagesOf(len: nat, o: nat)
    requires len < 2 * Bytes(o)
    ensures len < Bytes(o) ==> len / PAGE_SIZE < Pow2(o)
    ensures len >= Bytes(o) ==>
      && (len - Bytes(o)) / PAGE_SIZE == len / PAGE_SIZE - Pow2(o)
      && Pow2(o) <= len / PAGE_SIZE < 2 * Pow2(o)
  {
  }

  lemma {:induction false} SizeEven(a: nat, b: nat) returns (k: nat)
    requires b < a
    ensures Pow2(a) == 2 * (k * Pow2(b))
  {
    if b == a - 1 {
      k := 1;
    } else {
      k := SizeEven(a - 1, b);
      var h := k * Pow2(b);
      k := 2 * k;
      assert k * Pow2(b) == 2 * h;
    }
  }

  // Clearing a higher bit leaves bit j alone.
  lemma {:induction false} BitBelow(n: nat, a: nat, j: nat)
    requires j < a && Pow2(a) <= n
    ensures (n - Pow2(a)) / Pow2(j) % 2 == n / Pow2(j) % 2
  {
    var k := SizeEven(a, j);
    EvenQuotient(n, Pow2(j), k);
  }

  lemma {:induction false} EvenQuotient(n: nat, s: nat, k: nat)
    requires s > 0 && 2 * (k * s) <= n
    ensures (n - 2 * (k * s)) / s % 2 == n / s % 2
  {
    var q, r := n / s, n % s;
    var x := n - 2 * (k * s);
    assert (q - 2 * k) * s == q * s - 2 * (k * s);
    Quotient(x, s, q - 2 * k, r);
  }

  // All starts: block k of one order begins k(k + 1)/2 blocks behind the first.
  lemma {:induction false} SameOrderAt(p: nat, o: nat, num: nat, b: nat, k: nat)
    requires b <= num && k < num - b
    ensures |SameOrder(p, o, num, b)| == num - b
    ensures SameOrder(p, o, num, b)[k].order == o
    ensures SameOrder(p, o, num, b)[k].start == p + (Skip(b + k) - Skip(b)) * Pow2(o)
    decreases num - b
  {
    var s := Pow2(o);
    if k > 0 {
      SameOrderAt(p + (b + 1) * s, o, num, b + 1, k - 1);
      var x, y := Skip(b + k), Skip(b);
      assert Skip(b + 1) == y + b + 1;
      SumTimes(x - y - (b + 1), b + 1, s);
    } else if b + 1 < num {
      SameOrderAt(p + (b + 1) * s, o, num, b + 1, 0);
    }
  }

  lemma {:induction false} SumTimes(x: int, y: int, s: int)
    ensures x * s + y * s == (x + y) * s
  {
  }

  lemma {:induction false} SkipValue(k: nat)
    ensures Skip(k) == k * (k + 1) / 2
  {
    if k > 0 {
      SkipValue(k - 1);
      assert k * (k + 1) == (k - 1) * k + 2 * k;
    }
  }

  // The blocks of order o that the loop of __claim_range emits for len bytes.
  lemma {:induction false} StartsExactly(p: nat, o: nat, num: nat, k: nat)
    requires k < num
    ensures |SameOrder(p, o, num, 0)| == num
    ensures SameOrder(p, o, num, 0)[k] == Claim(p + k * (k + 1) / 2 * Pow2(o), o)
  {
    SameOrderAt(p, o, num, 0, k);
    SkipValue(k);
  }

  // The first three starts when two or more blocks of one order fit.
  lemma {:induction false} FirstThree(p: nat, o: nat, num: nat)
    requires num >= 2
    ensures var cs := SameOrder(p, o, num, 0);
      && |cs| >= 2 && cs[0] == Claim(p, o) && cs[1] == Claim(p + Pow2(o), o)
      && (num == 2 ==> |cs| == 2)
      && (num > 2 ==> |cs| > 2 && cs[2] == Claim(p + 3 * Pow2(o), o))
  {
    var s := Pow2(o);
    assert SameOrder(p, o, num, 0) == [Claim(p, o)] + SameOrder(p + 1 * s, o, num, 1);
    assert SameOrder(p + 1 * s, o, num, 1) == [Claim(p + 1 * s, o)] + SameOrder(p + 1 * s + 2 * s, o, num, 2);
    if num > 2 { assert SameOrder(p + 3 * s, o, num, 2)[0] == Claim(p + 3 * s, o); }
  }

  lemma {:induction false} NotTile(cs: seq<Claim>, p: nat, o: nat, e: nat)
    requires |cs| > 2 && cs[0] == Claim(p, o) && cs[1] == Claim(p + Pow2(o), o)
    requires cs[2].start == p + 3 * Pow2(o)
    ensures !Tile(cs, p, e)
  {
    var ds := cs[1..];
    assert ds[0] == cs[1] && ds[1..][0] == cs[2];
    assert !Tile(ds[1..], p + Pow2(o) + Pow2(o), e);
    assert !Tile(ds, p + Pow2(o), e);
  }

  lemma {:induction false} CutStart(p: nat, len: nat, n: nat)
    requires len < Bytes(n)
    decreases n
    ensures len < PAGE_SIZE ==> Cut(p, len, n) == []
    ensures len >= PAGE_SIZE ==> Cut(p, len, n) != [] && Cut(p, len, n)[0].start == p
  {
    if n > 0 {
      CutOnce(p, len, n);
      if len < Bytes(n - 1) { CutStart(p, len, n - 1); }
    }
  }

  // Two or more blocks of the largest order: no gap only when they are all.
  lemma {:induction false} CutMany(p: nat, len: nat, o: nat)
    requires len >= 2 * Bytes(o)
    ensures Tile(Cut(p, len, o + 1), p, p + len / PAGE_SIZE) <==> len / PAGE_SIZE == 2 * Pow2(o)
  {
    var b, s := Bytes(o), Pow2(o);
    var num, rem := len / b, len % b;
    Division(len, b);
    AtLeastTwo(len, b);
    var cs := Cut(p, len, o + 1);
    var rest := Cut(p + Skip(num) * s, rem, o);
    FirstThree(p, o, num);
    assert cs == SameOrder(p, o, num, 0) + rest;
    if num > 2 {
      NotTile(cs, p, o, p + len / PAGE_SIZE);
      MoreThan(len, num, b, s);
    } else {
      assert Skip(2) == Skip(1) + 2 && Skip(1) == Skip(0) + 1;
      assert rest == Cut(p + 3 * s, rem, o);
      CutStart(p + 3 * s, rem, o);
      if rem < PAGE_SIZE {
        assert cs == [Claim(p, o), Claim(p + s, o)];
        assert cs[1..][1..] == [] && Tile(cs[1..][1..], p + s + s, p + 2 * s);
        assert Tile(cs[1..], p + s, p + 2 * s);
      } else {
        assert cs[2] == rest[0];
        NotTile(cs, p, o, p + len / PAGE_SIZE);
      }
    }
  }

  lemma {:induction false} AtLeastTwo(x: nat, b: nat)
    requires b > 0 && x >= 2 * b
    ensures x / b >= 2
  {
    Division(x, b);
    if x / b <= 1 { TimesAtMost(x / b, b); }
  }

  lemma {:induction false} TimesAtMost(q: nat, b: nat)
    requires q <= 1
    ensures q * b <= b
  {
  }

  lemma {:induction false} MoreThan(len: nat, num: nat, b: nat, s: nat)
    requires num > 2 && b == s * PAGE_SIZE && len >= num * b
    ensures len / PAGE_SIZE > 2 * s || s == 0
  {
    assert num * b >= 3 * b;
  }

  // Main result: __claim_range tiles the whole pages of its range exactly when
  // there are at most 2^16 of them; from the third block of the largest order
  // on, and after the second, the advance of the start skips memory.
  lemma {:induction false} ClaimIsExact(p: nat, len: nat)
    ensures Tile(Cut(p, len, MAX_ORDER), p, p + len / PAGE_SIZE) <==> len / PAGE_SIZE <= 0x1_0000
  {
    var s := Pow2(15);
    assert Pow2(3) == 8 && Pow2(6) == 64 && Pow2(9) == 512 && Pow2(12) == 4096 && s == 0x8000;
    assert Pow2(16) == 2 * s;
    if len < 2 * Bytes(15) {
      CutTiles(p, len, 16);
    } else {
      CutMany(p, len, 15);
    }
  }

  // Block k lies k(k + 1)/2 blocks behind page p.
  predicate Spread(cs: seq<Claim>, p: nat, o: nat) {
    forall k :: 0 <= k < |cs| ==> cs[k] == Claim(p + k * (k + 1) / 2 * Pow2(o), o)
  }

  lemma {:induction false} SameSpread(p: nat, o: nat, num: nat)
    ensures |SameOrder(p, o, num, 0)| == num && Spread(SameOrder(p, o, num, 0), p, o)
  {
    var cs := SameOrder(p, o, num, 0);
    SameLength(p, o, num, 0);
    forall k | 0 <= k < |cs| ensures cs[k] == Claim(p + k * (k + 1) / 2 * Pow2(o), o) { StartsExactly(p, o, num, k); }
  }

  // What __claim_range emits for a range of any length: num blocks of the largest
  // order, each further from the one before, and from page q on the tiles of the
  // rem bytes that are left.
  lemma {:induction false} CutExactly(p: nat, len: nat, num: nat, q: nat, rem: nat, o: nat, n: nat)
    requires n == o + 1 == MAX_ORDER && CutAt(p, len, o, num, q, rem)
    ensures CutAs(Cut(p, len, n), p, num, q, rem, o)
  {
    CutStep(p, len, o, n, num, q, rem);
    LeftOver(p, len, o, num, q, rem);
    CutRest(Cut(p, len, n), p, num, q, rem, o);
  }

  ghost predicate CutAs(cs: seq<Claim>, p: nat, num: nat, q: nat, rem: nat, o: nat) {
    && |cs| >= num && Spread(cs[..num], p, o)
    && Tile(cs[num..], q, q + rem / PAGE_SIZE) && Descending(cs[num..], o)
  }

  lemma {:induction false} LeftOver(p: nat, len: nat, o: nat, num: nat, q: nat, rem: nat)
    requires CutAt(p, len, o, num, q, rem)
    ensures rem < Bytes(o)
  {
    Remainder(len, rem, Bytes(o));
  }

  lemma {:induction false} CutRest(cs: seq<Claim>, p: nat, num: nat, q: nat, rem: nat, o: nat)
    requires rem < Bytes(o) && cs == if num == 0 then Cut(q, rem, o) else SameOrder(p, o, num, 0) + Cut(q, rem, o)
    ensures CutAs(cs, p, num, q, rem, o)
  {
    SameSpread(p, o, num);
    CutTiles(q, rem, o);
    SplitAt(cs, SameOrder(p, o, num, 0), Cut(q, rem, o), num);
  }

  lemma {:induction false} Remainder(len: nat, rem: nat, size: nat)
    requires size > 0 && rem == len % size
    ensures rem < size
  {
  }

  lemma {:induction false} SplitAt(cs: seq<Claim>, same: seq<Claim>, rest: seq<Claim>, num: nat)
    requires |same| == num && if num == 0 then cs == rest else cs == same + rest
    ensures |cs| >= num && cs[num..] == rest && cs[..num] == same
  {
  }

  lemma {:induction false} SameLength(p: nat, o: nat, num: nat, b: nat)
    requires b <= num
    ensures |SameOrder(p, o, num, b)| == num - b
    decreases num - b
  {
    if b < num { SameLength(p + (b + 1) * Pow2(o), o, num, b + 1); }
  }

  ghost predicate HasAtLeast(cs: seq<Claim>, o: nat) {
    exists i :: 0 <= i < |cs| && cs[i].order >= o
  }

  // A block of order o or more is emitted exactly when the range has 2^o pages.
  lemma {:induction false} CutAtLeast(p: nat, len: nat, n: nat, o: nat)
    requires o < n
    decreases n
    ensures HasAtLeast(Cut(p, len, n), o) <==> len / PAGE_SIZE >= Pow2(o)
  {
    PagesAtLeast(len, o);
    if len >= Bytes(n - 1) {
      FitsOnce(len, n - 1);
      StepFirst(p, len, n - 1, n);
      PowGrows(o, n - 1);
    } else {
      FitsNever(len, n - 1);
      StepNone(p, len, n - 1, n);
      if o == n - 1 { CutOrders(p, len, n - 1); } else { CutAtLeast(p, len, n - 1, o); }
    }
  }

  lemma {:induction false} PagesAtLeast(len: nat, o: nat)
    ensures len / PAGE_SIZE >= Pow2(o) <==> len >= Bytes(o)
  {
  }

  lemma {:induction false} FitsOnce(len: nat, o: nat)
    requires len >= Bytes(o)
    ensures len / Bytes(o) > 0
  {
    Division(len, Bytes(o));
  }

  lemma {:induction false} FitsNever(len: nat, o: nat)
    requires len < Bytes(o)
    ensures len / Bytes(o) == 0
  {
    Quotient(len, Bytes(o), 0, len);
  }

  lemma {:induction false} PowGrows(a: nat, b: nat)
    requires a <= b
    ensures Pow2(a) <= Pow2(b)
  {
    if a < b { PowGrows(a, b - 1); }
  }

  lemma {:induction false} StepFirst(p: nat, len: nat, o: nat, n: nat)
    requires n == o + 1 && len / Bytes(o) > 0
    ensures HasAtLeast(Cut(p, len, n), o)
  {
    var num, q, rem := len / Bytes(o), p + Skip(len / Bytes(o)) * Pow2(o), len % Bytes(o);
    CutStep(p, len, o, n, num, q, rem);
    assert SameOrder(p, o, num, 0)[0] == Claim(p, o);
    assert Cut(p, len, n)[0].order == o;
  }

  lemma {:induction false} StepNone(p: nat, len: nat, o: nat, n: nat)
    requires n == o + 1 && len / Bytes(o) == 0
    ensures Cut(p, len, n) == Cut(p, len, o)
  {
    CutStep(p, len, o, n, 0, p + Skip(0) * Pow2(o), len % Bytes(o));
  }

  // ----- What the two callbacks make of the blocks

  // __zone_add_block for each block in turn.
  function AddAll(f: FreeLists, cs: seq<Claim>): FreeLists
    requires forall i :: 0 <= i < |cs| ==> cs[i].order < MAX_ORDER
  {
    if cs == [] then f else
      var k := |cs| - 1;
      Push(AddAll(f, cs[..k]), cs[k].order, cs[k].start)
  }

  // __page_array_add_block for each block in turn.
  function MarkAll(pages: seq<Page>, cs: seq<Claim>, kind: PageType): (r: seq<Page>)
    requires forall i :: 0 <= i < |cs| ==> cs[i].start + Pow2(cs[i].order) <= |pages|
    ensures |r| == |pages|
  {
    if cs == [] then pages else
      var k := |cs| - 1;
      Mark(MarkAll(pages, cs[..k], kind), cs[k].start, cs[k].order, kind)
  }

  lemma {:induction false} TileLast(cs: seq<Claim>, p: nat, e: nat)
    requires cs != [] && Tile(cs, p, e)
    ensures var c := cs[|cs| - 1];
      c.start + Pow2(c.order) == e && p <= c.start && Tile(cs[..|cs| - 1], p, c.start)
  {
    if |cs| > 1 {
      TileLast(cs[1..], p + Pow2(cs[0].order), e);
      assert cs[..|cs| - 1][1..] == cs[1..][..|cs| - 2];
    } else {
      assert cs[1..] == [];
    }
  }

  // Adding the tiles of a range makes each of its pages free once more.
  lemma {:induction false} CountAddAll(f: FreeLists, cs: seq<Claim>, p: nat, e: nat, q: nat)
    requires forall i :: 0 <= i < |cs| ==> cs[i].order < MAX_ORDER
    requires Tile(cs, p, e)
    ensures Count(AddAll(f, cs), q) == Count(f, q) + if p <= q < e then 1 else 0
  {
    if cs != [] {
      var k := |cs| - 1;
      TileLast(cs, p, e);
      CountAddAll(f, cs[..k], p, cs[k].start, q);
      CountPush(AddAll(f, cs[..k]), cs[k].order, cs[k].start, q);
    }
  }

  lemma {:induction false} KindMarkAll(pages: seq<Page>, cs: seq<Claim>, kind: PageType, p: nat, e: nat, q: nat)
    requires forall i :: 0 <= i < |cs| ==> cs[i].start + Pow2(cs[i].order) <= |pages|
    requires Tile(cs, p, e) && q < |pages|
    ensures MarkAll(pages, cs, kind)[q].kind == if p <= q < e then kind else pages[q].kind
  {
    if cs != [] {
      var k := |cs| - 1;
      TileLast(cs, p, e);
      KindMarkAll(pages, cs[..k], kind, p, cs[k].start, q);
    }
  }

  lemma {:induction false} TileInside(cs: seq<Claim>, p: nat, e: nat, i: nat)
    requires Tile(cs, p, e) && i < |cs|
    ensures p <= cs[i].start && cs[i].start + Pow2(cs[i].order) <= e
  {
    TileLast(cs, p, e);
    if i < |cs| - 1 { TileInside(cs[..|cs| - 1], p, cs[|cs| - 1].start, i); }
  }

  lemma {:induction false} CutOrders(p: nat, len: nat, n: nat)
    decreases n
    ensures forall i :: 0 <= i < |Cut(p, len, n)| ==> Cut(p, len, n)[i].order < n
  {
    if n > 0 {
      var num := len / Bytes(n - 1);
      if num > 0 {
        CutOrders(p + Skip(num) * Pow2(n - 1), len % Bytes(n - 1), n - 1);
        SameOrders(p, n - 1, num, 0);
      } else {
        CutOrders(p, len, n - 1);
      }
    }
  }

  lemma {:induction false} SameOrders(p: nat, o: nat, num: nat, b: nat)
    requires b <= num
    decreases num - b
    ensures forall i :: 0 <= i < |SameOrder(p, o, num, b)| ==> SameOrder(p, o, num, b)[i].order == o
  {
    if b < num { SameOrders(p + (b + 1) * Pow2(o), o, num, b + 1); }
  }

  // Which orders the free lists can serve after a range was added.
  lemma {:induction false} AddAllServes(f: FreeLists, cs: seq<Claim>, o: nat)
    requires o < MAX_ORDER && forall i :: 0 <= i < |cs| ==> cs[i].order < MAX_ORDER
    ensures FirstOrder(AddAll(f, cs), o) < MAX_ORDER <==> FirstOrder(f, o) < MAX_ORDER || HasAtLeast(cs, o)
  {
    if cs != [] {
      var k := |cs| - 1;
      var g := AddAll(f, cs[..k]);
      AddAllServes(f, cs[..k], o);
      PushServes(g, cs[k].order, cs[k].start, o);
      LastOrBefore(cs, o);
    }
  }

  lemma {:induction false} PushServes(f: FreeLists, o: nat, p: nat, j: nat)
    requires o < MAX_ORDER && j < MAX_ORDER
    ensures FirstOrder(Push(f, o, p), j) < MAX_ORDER <==> FirstOrder(f, j) < MAX_ORDER || o >= j
  {
    var g := Push(f, o, p);
    var x, y := FirstOrder(f, j), FirstOrder(g, j);
    if x < MAX_ORDER { assert g[x] != []; }
    if o >= j { assert g[o] != []; }
    if y < MAX_ORDER && y != o { assert f[y] == g[y]; }
  }

  lemma {:induction false} LastOrBefore(cs: seq<Claim>, o: nat)
    requires cs != []
    ensures HasAtLeast(cs, o) <==> HasAtLeast(cs[..|cs| - 1], o) || cs[|cs| - 1].order >= o
  {
    var rest := cs[..|cs| - 1];
    if HasAtLeast(rest, o) {
      var i :| 0 <= i < |rest| && rest[i].order >= o;
      assert cs[i].order >= o;
    }
    if HasAtLeast(cs, o) {
      var i :| 0 <= i < |cs| && cs[i].order >= o;
      if i < |rest| { assert rest[i].order >= o; }
    }
  }
}
