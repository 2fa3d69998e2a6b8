// The boot memory allocator of src/mm/bootmem.c: ranges of pages with a bitmap
// each, in which a set bit means that the page is taken.
module Bootmem {
  import opened Bitmap
  import opened Common

  const INVALID_ADDRESS: nat := 0xffff_ffff_ffff_ffff

  datatype Region = Region(start: nat, taken: seq<bool>)
  // Page s of region i is the first of the block.
  datatype Found = Block(i: nat, s: nat) | NoMemory

  // Least start of n free pages from page s on, |b| when there is none.
  function FirstRun(b: seq<bool>, n: nat, s: nat): (r: nat)
    requires s <= |b| && n > 0
    ensures s <= r <= |b|
    ensures r < |b| ==> RunAt(b, r, n, false)
    ensures forall j :: s <= j < r ==> !RunAt(b, j, n, false)
    decreases |b| - s
  {
    if s == |b| || RunAt(b, s, n, false) then s else FirstRun(b, n, s + 1)
  }

  // mm_bootmem_alloc_block from region i on. A range that is marked runs one
  // page past its block; where that page does not exist the whole call fails.
  function Search(rs: seq<Region>, n: nat, i: nat): Found
    requires i <= |rs|
    decreases |rs| - i
  {
    if n == 0 || i == |rs| then NoMemory else
      var b := rs[i].taken;
      var s := FirstRun(b, n, 0);
      if s == |b| then Search(rs, n, i + 1)
      else if n != 1 && s + n >= |b| then NoMemory
      else Block(i, s)
  }

  function Mark(b: seq<bool>, s: nat, n: nat): seq<bool> {
    WithRange(b, s, if n == 1 then s else s + n, true)
  }

  function Taken(rs: seq<Region>, n: nat, f: Found): seq<Region>
    requires f.Block? ==> f.i < |rs|
  {
    if f.Block? then rs[f.i := rs[f.i].(taken := Mark(rs[f.i].taken, f.s, n))] else rs
  }

  // A block that is found consists of free pages of its region.
  lemma {:induction false} SearchFinds(rs: seq<Region>, n: nat, i: nat)
    requires i <= |rs|
    ensures var f := Search(rs, n, i);
      f.Block? ==> n > 0 && i <= f.i < |rs| && RunAt(rs[f.i].taken, f.s, n, false)
    decreases |rs| - i
  {
    if i < |rs| { SearchFinds(rs, n, i + 1); }
  }

  lemma {:induction false} SearchOn(rs: seq<Region>, n: nat, i: nat)
    requires i < |rs| && (n == 0 || FirstRun(rs[i].taken, n, 0) == |rs[i].taken|)
    ensures Search(rs, n, i) == Search(rs, n, i + 1)
  {
  }

  lemma {:induction false} SearchHits(rs: seq<Region>, n: nat, i: nat)
    requires n > 0 && i < |rs| && FirstRun(rs[i].taken, n, 0) < |rs[i].taken|
    ensures var s := FirstRun(rs[i].taken, n, 0);
      Search(rs, n, i) == if n != 1 && s + n >= |rs[i].taken| then NoMemory else Block(i, s)
  {
  }

  ghost predicate HasRun(b: seq<bool>, n: nat) {
    exists r: nat :: RunAt(b, r, n, false)
  }

  // The block is the first run of the first region that has one.
  lemma {:induction false} SearchExactly(rs: seq<Region>, n: nat, j: nat, i: nat, r: nat)
    requires n > 0 && j <= i < |rs| && forall k :: j <= k < i ==> !HasRun(rs[k].taken, n)
    requires RunAt(rs[i].taken, r, n, false) && forall k :: 0 <= k < r ==> !RunAt(rs[i].taken, k, n, false)
    ensures Search(rs, n, j) == if n == 1 || r + n < |rs[i].taken| then Block(i, r) else NoMemory
    decreases i - j
  {
    if j < i {
      assert !HasRun(rs[j].taken, n);
      SearchExactly(rs, n, j + 1, i, r);
    }
  }

  // Main result: a block is found exactly when a region has a run, and in the
  // first that has one it is a single page or does not end the bitmap.
  lemma {:induction false} FoundExactly(rs: seq<Region>, n: nat)
    ensures Search(rs, n, 0).Block? <==>
      n > 0 && exists i: nat, r: nat :: i < |rs| && FirstOf(rs, n, i, r) && (n == 1 || r + n < |rs[i].taken|)
  {
    var f := Search(rs, n, 0);
    if f.Block? {
      SearchFinds(rs, n, 0);
      SearchStart(rs, n, 0);
      FirstRegion(rs, n, 0);
      assert FirstOf(rs, n, f.i, f.s);
    }
    if n > 0 {
      forall i: nat, r: nat | i < |rs| && FirstOf(rs, n, i, r)
        ensures f == if n == 1 || r + n < |rs[i].taken| then Block(i, r) else NoMemory
      {
        SearchExactly(rs, n, 0, i, r);
      }
    }
  }

  ghost predicate FirstOf(rs: seq<Region>, n: nat, i: nat, r: nat)
    requires i < |rs|
  {
    && (forall k :: 0 <= k < i ==> !HasRun(rs[k].taken, n))
    && RunAt(rs[i].taken, r, n, false) && forall k :: 0 <= k < r ==> !RunAt(rs[i].taken, k, n, false)
  }

  lemma {:induction false} FirstRegion(rs: seq<Region>, n: nat, j: nat)
    requires n > 0 && j <= |rs| && Search(rs, n, j).Block?
    ensures var f := Search(rs, n, j);
      j <= f.i < |rs| && (n == 1 || f.s + n < |rs[f.i].taken|) && forall k :: j <= k < f.i ==> !HasRun(rs[k].taken, n)
    decreases |rs| - j
  {
    if FirstRun(rs[j].taken, n, 0) == |rs[j].taken| { FirstRegion(rs, n, j + 1); }
  }

  // ----- Runs

  datatype Event = Event(npages: nat, found: Found)

  ghost predicate Run(hs: seq<seq<Region>>, es: seq<Event>) {
    && |hs| == |es| + 1
    && forall k :: 0 <= k < |es| ==>
      && es[k].found == Search(hs[k], es[k].npages, 0)
      && (es[k].found.Block? ==> es[k].found.i < |hs[k]|)
      && hs[k + 1] == Taken(hs[k], es[k].npages, es[k].found)
  }

  predicate TakenAt(rs: seq<Region>, i: nat, p: nat) {
    i < |rs| && p < |rs[i].taken| && rs[i].taken[p]
  }

  // No page that is taken ever becomes free again.
  lemma {:induction false} TakenForGood(hs: seq<seq<Region>>, es: seq<Event>, a: nat, b: nat, i: nat, p: nat)
    requires Run(hs, es) && a <= b <= |es| && TakenAt(hs[a], i, p)
    ensures TakenAt(hs[b], i, p)
    decreases b - a
  {
    if a < b {
      assert hs[a + 1] == Taken(hs[a], es[a].npages, es[a].found);
      TakenForGood(hs, es, a + 1, b, i, p);
    }
  }

  // Every page of a returned block was free before and is taken afterwards.
  lemma {:induction false} BlockPages(hs: seq<seq<Region>>, es: seq<Event>, k: nat, p: nat)
    requires Run(hs, es) && k < |es| && es[k].found.Block?
    requires es[k].found.s <= p < es[k].found.s + es[k].npages
    ensures !TakenAt(hs[k], es[k].found.i, p) && TakenAt(hs[k + 1], es[k].found.i, p)
  {
    SearchFinds(hs[k], es[k].npages, 0);
  }

  // Main result: blocks returned from one range never overlap.
  lemma {:induction false} BlocksDisjoint(hs: seq<seq<Region>>, es: seq<Event>, a: nat, b: nat)
    requires Run(hs, es) && a < b < |es| && es[a].found.Block? && es[b].found.Block?
    requires es[a].found.i == es[b].found.i
    ensures var x, y := es[a].found.s, es[b].found.s;
      x + es[a].npages <= y || y + es[b].npages <= x
  {
    var x, y, i := es[a].found.s, es[b].found.s, es[a].found.i;
    SearchFinds(hs[a], es[a].npages, 0);
    SearchFinds(hs[b], es[b].npages, 0);
    var p := if x <= y then y else x;
    if p < x + es[a].npages && p < y + es[b].npages {
      BlockPages(hs, es, a, p);
      BlockPages(hs, es, b, p);
      TakenForGood(hs, es, a + 1, b, i, p);
    }
  }

  // ----- What was claimed

  // A bitmap after bootmem_claim_range claimed a range of npages pages: one bit
  // more than its pages is cleared, and none when the bitmap is too short.
  function Claimed(size: nat, npages: nat): seq<bool> {
    var b := seq(size, _ => true);
    if npages < size then WithRange(b, 0, npages, false) else b
  }

  // The bits that a granted block of n pages takes.
  function Cost(n: nat): nat {
    if n == 1 then 1 else n + 1
  }

  // The bits of range i that the blocks of the run have taken.
  function Used(es: seq<Event>, i: nat): nat {
    if es == [] then 0 else
      var e := es[|es| - 1];
      Used(es[..|es| - 1], i) + if e.found.Block? && e.found.i == i then Cost(e.npages) else 0
  }

  // Of the npages + 1 bits that were cleared the first used ones are taken again.
  predicate Shape(b: seq<bool>, size: nat, npages: nat, used: nat) {
    |b| == size && forall j :: 0 <= j < size ==> (b[j] <==> j < used || j > npages)
  }

  lemma {:induction false} ShapeRun(b: seq<bool>, size: nat, npages: nat, used: nat, n: nat)
    requires Shape(b, size, npages, used) && npages < size && n > 0
    ensures FirstRun(b, n, 0) == if used + n <= npages + 1 then used else size
  {
    var r := FirstRun(b, n, 0);
    if used + n <= npages + 1 { assert RunAt(b, used, n, false); }
    if r < size { ShapeFree(b, size, npages, used, r, n); }
  }

  lemma {:induction false} ShapeFree(b: seq<bool>, size: nat, npages: nat, used: nat, r: nat, n: nat)
    requires Shape(b, size, npages, used) && n > 0 && RunAt(b, r, n, false)
    ensures used <= r && r + n <= npages + 1
  {
    var p := r + n - 1;
    assert !b[r] && !b[p];
  }

  // Over every run the bits of a claimed range keep that shape.
  lemma {:induction false} RunShape(hs: seq<seq<Region>>, es: seq<Event>, i: nat, size: nat, npages: nat, k: nat)
    requires Run(hs, es) && k <= |es| && i < |hs[0]| && npages < size && hs[0][i].taken == Claimed(size, npages)
    ensures i < |hs[k]| && Shape(hs[k][i].taken, size, npages, Used(es[..k], i))
  {
    if k > 0 {
      var l := k - 1;
      RunShape(hs, es, i, size, npages, l);
      assert es[..k][..l] == es[..l];
      assert hs[k] == Taken(hs[l], es[l].npages, es[l].found);
      if es[l].found.Block? && es[l].found.i == i { Placed(hs[l], size, npages, Used(es[..l], i), es[l].npages, i); }
    }
  }

  // A block that is found in a range of that shape.
  lemma {:induction false} Placed(rs: seq<Region>, size: nat, npages: nat, used: nat, n: nat, i: nat)
    requires i < |rs| && Shape(rs[i].taken, size, npages, used) && npages < size
    requires Search(rs, n, 0).Block? && Search(rs, n, 0).i == i
    ensures n > 0 && Search(rs, n, 0).s == used && used + n <= npages + 1
    ensures Shape(Mark(rs[i].taken, used, n), size, npages, used + Cost(n))
  {
    SearchFinds(rs, n, 0);
    SearchStart(rs, n, 0);
    ShapeRun(rs[i].taken, size, npages, used, n);
  }

  // A block starts at the first run that is long enough.
  lemma {:induction false} SearchStart(rs: seq<Region>, n: nat, j: nat)
    requires j <= |rs| && Search(rs, n, j).Block?
    ensures var f := Search(rs, n, j); n > 0 && f.i < |rs| && f.s == FirstRun(rs[f.i].taken, n, 0) < |rs[f.i].taken|
    decreases |rs| - j
  {
    if j < |rs| && FirstRun(rs[j].taken, n, 0) == |rs[j].taken| { SearchStart(rs, n, j + 1); }
  }

  // Main result: over every run, a block starts behind the bits used so far. It
  // stays inside the claimed pages exactly when they have room for it; one page
  // more is still granted.
  lemma {:induction false} InsideExactly(hs: seq<seq<Region>>, es: seq<Event>, i: nat, size: nat, npages: nat, k: nat)
    requires Run(hs, es) && k < |es| && i < |hs[0]| && npages < size && hs[0][i].taken == Claimed(size, npages)
    requires es[k].found.Block? && es[k].found.i == i
    ensures es[k].found.s == Used(es[..k], i) && es[k].found.s + es[k].npages <= npages + 1
    ensures es[k].found.s + es[k].npages <= npages <==> Used(es[..k], i) + es[k].npages <= npages
  {
    RunShape(hs, es, i, size, npages, k);
    Placed(hs[k], size, npages, Used(es[..k], i), es[k].npages, i);
  }

  // With one range, a request is granted exactly while its pages and, but for
  // single pages, the bit behind them are there.
  lemma {:induction false} GrantedExactly(hs: seq<seq<Region>>, es: seq<Event>, size: nat, npages: nat, k: nat)
    requires Run(hs, es) && k < |es| && |hs[0]| == 1 && npages < size && hs[0][0].taken == Claimed(size, npages)
    ensures var used, n := Used(es[..k], 0), es[k].npages;
      es[k].found.Block? <==> 0 < n <= npages + 1 - used && (n == 1 || used + n < size)
  {
    RunShape(hs, es, 0, size, npages, k);
    SameCount(hs, es, k);
    if es[k].npages > 0 { ShapeRun(hs[k][0].taken, size, npages, Used(es[..k], 0), es[k].npages); }
    assert Search(hs[k], es[k].npages, 1) == NoMemory;
  }

  lemma {:induction false} SameCount(hs: seq<seq<Region>>, es: seq<Event>, k: nat)
    requires Run(hs, es) && k <= |es|
    ensures |hs[k]| == |hs[0]|
  {
    if k > 0 {
      SameCount(hs, es, k - 1);
      assert hs[k] == Taken(hs[k - 1], es[k - 1].npages, es[k - 1].found);
    }
  }

  // A range as long as its bitmap or longer is claimed without any effect: the
  // clearing of its bits is refused, and no block is ever found in it.
  lemma {:induction false} LongRangeUnused(start: nat, size: nat, npages: nat, n: nat)
    requires size <= npages && n > 0
    ensures Search([Region(start, Claimed(size, npages))], n, 0) == NoMemory
  {
    var b := Claimed(size, npages);
    forall r: nat | r + n <= |b| ensures !RunAt(b, r, n, false) { SpoiltRun(b, r, n, r); }
  }

  lemma {:induction false} SpoiltRun(b: seq<bool>, r: nat, n: nat, p: nat)
    requires r <= p < r + n && p < |b| && b[p]
    ensures !RunAt(b, r, n, false)
  {
  }

  // ----- The allocator itself

  // ROUND_UP to a page
  function RoundUp(addr: nat): (r: nat)
    ensures r % PAGE_SIZE == 0 && addr <= r < addr + PAGE_SIZE
  {
    if addr % PAGE_SIZE != 0 then addr - addr % PAGE_SIZE + PAGE_SIZE else addr
  }

  // ----- The ranges

  const MAX_RANGES: nat := 5
  const RANGE_BITS: nat := 256 * 32

  predicate AllSet(b: seq<bool>) {
    forall j :: 0 <= j < |b| ==> b[j]
  }

  // An entry of the multiboot2 memory map.
  datatype MapEntry = MapEntry(usable: bool, addr: nat, bytes: nat)

  // The ranges that mm_bootmem_init claims: the first five usable ones with a
  // page or more.
  function Claims(es: seq<MapEntry>): (rs: seq<Region>)
    ensures |rs| <= MAX_RANGES
  {
    if es == [] then [] else
      var rs, e := Claims(es[..|es| - 1]), es[|es| - 1];
      if e.usable && e.bytes >= PAGE_SIZE && |rs| < MAX_RANGES then
        rs + [Region(RoundUp(e.addr), Claimed(RANGE_BITS, e.bytes / PAGE_SIZE))]
      else rs
  }

  predicate Claimable(e: MapEntry) {
    e.usable && e.bytes >= PAGE_SIZE
  }

  // Entries below k that can be claimed.
  ghost function Before(es: seq<MapEntry>, k: nat): set<nat>
    requires k <= |es|
  {
    set j | 0 <= j < k && Claimable(es[j])
  }

  // Main result: the regions are those of the first five entries that can be
  // claimed, in the order of the map.
  lemma {:induction false} ClaimsExactly(es: seq<MapEntry>)
    ensures |Claims(es)| == if |Before(es, |es|)| < MAX_RANGES then |Before(es, |es|)| else MAX_RANGES
    ensures forall k :: 0 <= k < |es| ==> ClaimsEntry(es, Claims(es), k)
  {
    if es != [] {
      var n := |es| - 1;
      ClaimsExactly(es[..n]);
      SameBefore(es, n);
      MoreBefore(es, n);
      forall k | 0 <= k < |es| ensures ClaimsEntry(es, Claims(es), k) { NextClaim(es, es[..n], k); }
    }
  }

  ghost predicate ClaimsEntry(es: seq<MapEntry>, rs: seq<Region>, k: nat)
    requires k < |es|
  {
    Claimable(es[k]) && |Before(es, k)| < MAX_RANGES ==> ClaimedAt(rs, |Before(es, k)|, es[k])
  }

  lemma {:induction false} SameBefore(es: seq<MapEntry>, k: nat)
    requires es != [] && k < |es|
    ensures Before(es[..|es| - 1], k) == Before(es, k)
  {
  }

  lemma {:induction false} NextClaim(es: seq<MapEntry>, rest: seq<MapEntry>, k: nat)
    requires k < |es| && rest == es[..|es| - 1] && (k < |rest| ==> ClaimsEntry(rest, Claims(rest), k))
    requires var n := |Before(rest, |rest|)|; |Claims(rest)| == if n < MAX_RANGES then n else MAX_RANGES
    ensures ClaimsEntry(es, Claims(es), k)
  {
    SameBefore(es, k);
  }

  ghost predicate ClaimedAt(rs: seq<Region>, i: nat, e: MapEntry) {
    i < |rs| && e.addr <= rs[i].start < e.addr + PAGE_SIZE && rs[i].start % PAGE_SIZE == 0
      && rs[i].taken == Claimed(RANGE_BITS, e.bytes / PAGE_SIZE)
  }

  lemma {:induction false} MoreBefore(es: seq<MapEntry>, n: nat)
    requires n < |es|
    ensures |Before(es, n + 1)| == |Before(es, n)| + if Claimable(es[n]) then 1 else 0
  {
    assert Before(es, n + 1) == Before(es, n) + if Claimable(es[n]) then {n} else {};
  }

  lemma {:induction false} ClaimsStep(es: seq<MapEntry>, k: nat)
    requires k < |es|
    ensures var rs, e := Claims(es[..k]), es[k];
      Claims(es[..k + 1]) ==
        if e.usable && e.bytes >= PAGE_SIZE && |rs| < MAX_RANGES then
          rs + [Region(RoundUp(e.addr), Claimed(RANGE_BITS, e.bytes / PAGE_SIZE))]
        else rs
  {
    assert es[..k + 1][..k] == es[..k];
  }

  class Range {
    var start: nat
    const bm: Bits

    constructor (start: nat, bm: Bits)
      ensures this.start == start && this.bm == bm
    {
      this.start, this.bm := start, bm;
    }
  }

  class BootMemory {
    const ranges: seq<Range>
    // Number of ranges in use.
    var ptr: nat

    ghost predicate Valid()
      reads this, ranges, set i | 0 <= i < |ranges| :: ranges[i].bm, set i | 0 <= i < |ranges| :: ranges[i].bm.bits
    {
      && ptr <= |ranges|
      && (forall i :: 0 <= i < |ranges| ==> ranges[i].bm.Valid() && ranges[i].bm.len > 0)
      && (forall i, j :: 0 <= i < j < |ranges| ==> ranges[i].bm.bits != ranges[j].bm.bits)
      && (forall i :: ptr <= i < |ranges| ==> AllSet(ranges[i].bm.View()))
    }

    ghost function RegionAt(i: nat): Region
      requires Valid() && i < ptr
      reads this, ranges, set i | 0 <= i < |ranges| :: ranges[i].bm, set i | 0 <= i < |ranges| :: ranges[i].bm.bits
    {
      Region(ranges[i].start, ranges[i].bm.View())
    }

    ghost function View(): (rs: seq<Region>)
      requires Valid()
      reads this, ranges, set i | 0 <= i < |ranges| :: ranges[i].bm, set i | 0 <= i < |ranges| :: ranges[i].bm.bits
      ensures |rs| == ptr && forall i :: 0 <= i < ptr ==> rs[i] == RegionAt(i)
    {
      seq(ptr, i requires Valid() && 0 <= i < ptr
               reads this, ranges, set i | 0 <= i < |ranges| :: ranges[i].bm, set i | 0 <= i < |ranges| :: ranges[i].bm.bits
            => RegionAt(i))
    }

    // mm_bootmem_init: all bits are set, and then the ranges of the memory map
    // are claimed.
    constructor (es: seq<MapEntry>)
      ensures Valid() && View() == Claims(es)
      ensures |ranges| == MAX_RANGES && forall i :: 0 <= i < MAX_RANGES ==> ranges[i].bm.len == RANGE_BITS
    {
      var rs: seq<Range> := [];
      while |rs| < MAX_RANGES
        invariant |rs| <= MAX_RANGES && fresh(rs)
        invariant forall i :: 0 <= i < |rs| ==> fresh(rs[i].bm) && fresh(rs[i].bm.bits)
        invariant forall i :: 0 <= i < |rs| ==>
          rs[i].bm.Valid() && rs[i].bm.len == RANGE_BITS && AllSet(rs[i].bm.View())
        invariant forall i, j :: 0 <= i < j < |rs| ==> rs[i].bm.bits != rs[j].bm.bits
      {
        var bm := new Bits(RANGE_BITS);
        var e := bm.BmSetRange(0, RANGE_BITS - 1);
        var r := new Range(INVALID_ADDRESS, bm);
        rs := rs + [r];
      }
      ranges, ptr := rs, 0;
      new;
      ClaimAll(es);
    }

    // multiboot2_map_memory with bootmem_claim_range
    method ClaimAll(es: seq<MapEntry>)
      requires Valid() && ptr == 0 && |ranges| == MAX_RANGES
      requires forall i :: 0 <= i < MAX_RANGES ==> ranges[i].bm.len == RANGE_BITS
      modifies this`ptr, ranges, set i | 0 <= i < |ranges| :: ranges[i].bm.bits
      ensures Valid() && View() == Claims(es)
    {
      var k := 0;
      while k < |es|
        invariant 0 <= k <= |es| && Valid() && View() == Claims(es[..k])
      {
        ClaimsStep(es, k);
        ClaimRange(es[k].usable, es[k].addr, es[k].bytes);
        k := k + 1;
      }
      assert es[..k] == es;
    }

    // bootmem_claim_range
    method ClaimRange(usable: bool, addr: nat, bytes: nat)
      requires Valid()
      modifies this`ptr, ranges, set i | 0 <= i < |ranges| :: ranges[i].bm.bits
      ensures Valid()
      ensures View() ==
        if usable && bytes >= PAGE_SIZE && old(ptr) < |ranges| then
          old(View()) + [Region(RoundUp(addr), Claimed(ranges[old(ptr)].bm.len, bytes / PAGE_SIZE))]
        else
          old(View())
    {
      if !usable || ptr >= |ranges| { return; }
      var npages := bytes / PAGE_SIZE;
      if npages == 0 { return; }
      var r := ranges[ptr];
      r.start := RoundUp(addr);
      var e := r.bm.BmUnsetRange(0, npages);
      assert r.bm.View() == Claimed(r.bm.len, npages);
      ptr := ptr + 1;
      forall j | 0 <= j < old(ptr) ensures RegionAt(j) == old(RegionAt(j)) {
        assert ranges[j].bm.bits != ranges[old(ptr)].bm.bits;
      }
      assert View()[old(ptr)] == RegionAt(old(ptr));
    }

    // mm_bootmem_alloc_block
    method AllocBlock(npages: nat) returns (address: nat)
      requires Valid()
      modifies set i | 0 <= i < |ranges| :: ranges[i].bm.bits
      ensures Valid() && ptr == old(ptr)
      ensures var f := Search(old(View()), npages, 0);
        if f.Block? then
          f.i < ptr && address == ranges[f.i].start + PAGE_SIZE * f.s && View() == Taken(old(View()), npages, f)
        else
          address == INVALID_ADDRESS && View() == old(View())
    {
      ghost var rs := View();
      var i, s := FindRange(npages);
      if i == ptr { return INVALID_ADDRESS; }
      SearchHits(rs, npages, i);
      address := TakeFrom(i, s, npages, rs);
    }

    // The search over the ranges: the first with npages free pages in a row.
    method FindRange(npages: nat) returns (i: nat, s: int)
      requires Valid()
      ensures i <= ptr && (i == ptr ==> Search(View(), npages, 0) == NoMemory)
      ensures i < ptr ==> npages > 0 && Search(View(), npages, 0) == Search(View(), npages, i)
      ensures i < ptr ==> s == FirstRun(View()[i].taken, npages, 0) < |View()[i].taken|
    {
      i, s := 0, -ENOENT;
      ghost var rs := View();
      while i < ptr
        invariant 0 <= i <= ptr && View() == rs
        invariant Search(rs, npages, 0) == Search(rs, npages, i)
      {
        s := FindIn(i, npages);
        if s != -ENOENT { return; }
        SearchOn(rs, npages, i);
        i := i + 1;
      }
    }

    // bm_find_first_unset_range over a whole range.
    method FindIn(i: nat, npages: nat) returns (s: int)
      requires Valid() && i < ptr
      ensures View() == old(View()) && (npages == 0 ==> s == -ENOENT)
      ensures npages > 0 ==>
        var b := View()[i].taken;
        if FirstRun(b, npages, 0) == |b| then s == -ENOENT else s == FirstRun(b, npages, 0)
    {
      var bm := ranges[i].bm;
      s := bm.BmFindFirstRange(0, bm.len - 1, npages, false);
      assert View()[i] == RegionAt(i);
      if npages > 0 { RunFound(bm.View(), npages, s); }
    }

    // Marks the block of npages pages at page s of range i.
    method TakeFrom(i: nat, s: nat, npages: nat, ghost rs: seq<Region>) returns (address: nat)
      requires Valid() && View() == rs && i < ptr && npages > 0 && s + npages <= |rs[i].taken|
      modifies ranges[i].bm.bits
      ensures Valid()
      ensures if npages != 1 && s + npages >= |rs[i].taken| then
          address == INVALID_ADDRESS && View() == rs
        else
          address == ranges[i].start + PAGE_SIZE * s && View() == Taken(rs, npages, Block(i, s))
    {
      var bm := ranges[i].bm;
      assert View()[i] == RegionAt(i);
      var r;
      var outside := false;
      if npages == 1 { r, outside := bm.BmSetBit(s); } else { r := bm.BmSetRange(s, s + npages); }
      forall j | 0 <= j < ptr && j != i ensures RegionAt(j) == old(RegionAt(j)) {
        assert if j < i then ranges[j].bm.bits != ranges[i].bm.bits else ranges[i].bm.bits != ranges[j].bm.bits;
      }
      assert RegionAt(i).taken == if r == OK then Mark(old(RegionAt(i)).taken, s, npages) else old(RegionAt(i)).taken;
      address := if r == OK then ranges[i].start + PAGE_SIZE * s else INVALID_ADDRESS;
    }
  }

  lemma {:induction false} RunFound(b: seq<bool>, n: nat, r: int)
    requires n > 0
    requires b != [] && IsFirstRun(b, 0, |b| - 1, n, false, r)
    ensures if FirstRun(b, n, 0) == |b| then r == -ENOENT else r == FirstRun(b, n, 0)
  {
    var f := FirstRun(b, n, 0);
    if f < |b| { assert RunAt(b, f, n, false); }
  }
}
