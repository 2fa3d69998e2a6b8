// The page frame allocator of src/mm/page.c as it runs: blocks on intrusive
// doubly linked lists (src/lib/list.c) and the page array.
module PageFrames {
  import opened FrameLists
  import opened FrameRuns
  import opened ClaimedRanges
  import opened Arithmetic
  import opened Common

  const ZONE_DMA_END: nat := 0xff_ffff
  const ZONE_NORMAL_START: nat := 0x0100_0000
  const ZONE_NORMAL_END: nat := 0x7fff_ffff

  // mm_block_t with its list_head_t.
  class Block {
    var start: nat
    var end: nat
    var next: Block?
    var prev: Block?
    // Order of the list the block is on, and its distance from that list's end.
    ghost var order: nat
    ghost var depth: nat

    constructor ()
      ensures next == null && prev == null
    {
      next, prev := null, null;
    }
  }

  function Just(b: Block?): set<Block> {
    if b == null then {} else {b}
  }

  // list_remove
  method ListRemove(s: Block)
    modifies Just(s.next)`prev, Just(s.prev)`next
    ensures s.next != null ==> s.next.prev == s.prev
    ensures s.prev != null ==> s.prev.next == s.next
    ensures s.next == old(s.next) && s.prev == old(s.prev)
  {
    if s.next != null { s.next.prev := s.prev; }
    if s.prev != null { s.prev.next := s.next; }
  }

  // list_append: t goes right after s.
  method ListAppend(s: Block, t: Block)
    requires s != t && s.next != s && s.next != t
    modifies t`next, t`prev, Just(s.next)`prev, s`next
    ensures t.next == old(s.next) && t.prev == s && s.next == t
    ensures t.next != null ==> t.next.prev == t
  {
    t.next := s.next;
    t.prev := s;
    if s.next != null { s.next.prev := t; }
    s.next := t;
  }

  // list_init_null
  method ListInitNull(s: Block)
    modifies s`next, s`prev
    ensures s.next == null && s.prev == null
  {
    s.next, s.prev := null, null;
  }

  datatype Zone = Dma | Normal | High | NoZone

  // __get_zone
  function GetZone(start: nat, end: nat): Zone {
    if end < ZONE_DMA_END then Dma
    else if start >= ZONE_NORMAL_START && end < ZONE_NORMAL_END then Normal
    else if start >= 0x8000_0000 && end < 0xffff_ffff_ffff_ffff then High
    else NoZone
  }

  // A block that starts in the normal zone is given back to that zone exactly
  // when it ends below the zone's last byte; otherwise mm_block_free panics.
  lemma {:induction false} ZoneOfNormalBlock(start: nat, end: nat)
    requires ZONE_NORMAL_START <= start < 0x8000_0000 && start < end
    ensures GetZone(start, end) == if end < ZONE_NORMAL_END then Normal else NoZone
  {
  }

  // The callbacks of __claim_range.
  datatype Callback = ToZone | ToPageArray(kind: PageType)

  // A range of the memory map, rounded to pages, and how the page array marks it.
  datatype MemRange = MemRange(start: nat, end: nat, kind: PageType)
  {
    ghost predicate Has(q: nat) {
      start / PAGE_SIZE <= q < end / PAGE_SIZE
    }

    // Page-aligned, inside the page array, and not so long that
    // __claim_range skips memory.
    ghost predicate Proper(n: nat) {
      && start % PAGE_SIZE == 0 && end % PAGE_SIZE == 0
      && start <= end && (end - start) / PAGE_SIZE <= 0x1_0000
      && end / PAGE_SIZE <= n
    }

    // What mm_claim_range claims of the range for the normal zone: all of it, or
    // what lies behind the DMA zone when it begins there and reaches beyond.
    // A range that begins in the normal zone and reaches its end is lost.
    function NormalPart(): MemRange {
      if GetZone(start, end) == Normal then this
      else if start < ZONE_NORMAL_START && end > ZONE_DMA_END then this.(start := ZONE_NORMAL_START)
      else this.(end := start)
    }
  }

  // At least 2^o of its pages are claimed for the normal zone.
  ghost predicate Gives(r: MemRange, o: nat) {
    r.kind == PageType.Free && (r.NormalPart().end - r.NormalPart().start) / PAGE_SIZE >= Pow2(o)
  }

  ghost predicate ProperMap(rs: seq<MemRange>, n: nat) {
    && (forall i :: 0 <= i < |rs| ==> rs[i].Proper(n))
    && (forall i, j, q: nat :: 0 <= i < j < |rs| && rs[i].Has(q) ==> !rs[j].Has(q))
  }

  // Page q is claimed for the normal zone.
  ghost predicate FreeIn(rs: seq<MemRange>, q: nat) {
    exists i :: 0 <= i < |rs| && rs[i].NormalPart().Has(q) && rs[i].kind == PageType.Free
  }

  lemma {:induction false} NormalProper(r: MemRange, n: nat)
    requires r.Proper(n)
    ensures r.NormalPart().Proper(n)
    ensures forall q: nat :: r.NormalPart().Has(q) ==> r.Has(q) && q * PAGE_SIZE >= ZONE_NORMAL_START
  {
  }

  // All pages of a range behind the DMA zone are claimed, unless the range begins
  // in the normal zone and reaches its end: then none is.
  lemma {:induction false} NormalExactly(r: MemRange, n: nat)
    requires r.Proper(n) && n <= 0x8_0000
    ensures var lost := ZONE_NORMAL_START <= r.start < r.end && ZONE_NORMAL_END <= r.end;
      && ((forall q: nat :: r.Has(q) && q * PAGE_SIZE >= ZONE_NORMAL_START ==> r.NormalPart().Has(q)) <==> !lost)
      && (lost ==> forall q: nat :: !r.NormalPart().Has(q))
  {
    if ZONE_NORMAL_START <= r.start < r.end && ZONE_NORMAL_END <= r.end {
      assert r.Has(r.start / PAGE_SIZE) && r.NormalPart().start == r.NormalPart().end;
    }
  }

  // All pages lie in the normal zone, but for the last of them.
  ghost predicate InNormal(managed: set<nat>) {
    forall q :: q in managed ==> ZONE_NORMAL_START <= q * PAGE_SIZE < 0x8000_0000
  }

  lemma {:induction false} FreeNormal(rs: seq<MemRange>, n: nat)
    requires ProperMap(rs, n) && n <= 0x8_0000
    ensures InNormal(FreePages(rs, |rs|, n))
  {
    forall q | q in FreePages(rs, |rs|, n) ensures ZONE_NORMAL_START <= q * PAGE_SIZE < 0x8000_0000 {
      var i :| 0 <= i < |rs| && rs[i].NormalPart().Has(q) && rs[i].kind == PageType.Free;
      NormalProper(rs[i], n);
    }
  }

  // The free pages of the first k ranges.
  ghost function FreePages(rs: seq<MemRange>, k: nat, n: nat): set<nat>
    requires k <= |rs|
  {
    set q: nat | q < n && FreeIn(rs[..k], q)
  }

  lemma {:induction false} WholePages(start: nat, end: nat)
    requires start % PAGE_SIZE == 0 && end % PAGE_SIZE == 0 && start <= end
    ensures start / PAGE_SIZE + (end - start) / PAGE_SIZE == end / PAGE_SIZE
  {
  }

  lemma {:induction false} TilesInside(cs: seq<Claim>, p: nat, e: nat, n: nat)
    requires Tile(cs, p, e) && e <= n
    ensures forall i :: 0 <= i < |cs| ==> cs[i].start + Pow2(cs[i].order) <= n
  {
    forall i | 0 <= i < |cs| ensures cs[i].start + Pow2(cs[i].order) <= n { TileInside(cs, p, e, i); }
  }

  lemma {:induction false} ProperTiles(r: MemRange, n: nat)
    requires r.Proper(n)
    ensures var cs := Cut(r.start / PAGE_SIZE, r.end - r.start, MAX_ORDER);
      && Tile(cs, r.start / PAGE_SIZE, r.end / PAGE_SIZE)
      && (forall i :: 0 <= i < |cs| ==> cs[i].order < MAX_ORDER && cs[i].start + Pow2(cs[i].order) <= n)
  {
    WholePages(r.start, r.end);
    PagesTile(r.start / PAGE_SIZE, r.end - r.start, r.end / PAGE_SIZE, n);
  }

  lemma {:induction false} PagesTile(p: nat, len: nat, e: nat, n: nat)
    requires p + len / PAGE_SIZE == e <= n && len / PAGE_SIZE <= 0x1_0000
    ensures var cs := Cut(p, len, MAX_ORDER);
      && Tile(cs, p, e)
      && (forall i :: 0 <= i < |cs| ==> cs[i].order < MAX_ORDER && cs[i].start + Pow2(cs[i].order) <= n)
  {
    ClaimIsExact(p, len);
    CutOrders(p, len, MAX_ORDER);
    TilesInside(Cut(p, len, MAX_ORDER), p, e, n);
  }

  // Once all free ranges are claimed and marked, and the block of the page
  // array itself is taken, the invariant of the allocator holds.
  lemma {:induction false} InitialState(managed: set<nat>, f: FreeLists, g: FreeLists, p: nat, o: nat, pages: seq<Page>)
    requires forall q: nat :: Count(f, q) == if q in managed then 1 else 0
    requires forall q :: q in managed ==> q < |pages| && pages[q].kind == PageType.Free
    requires o < MAX_ORDER && Alloc(f, o) == Some((g, p))
    ensures p + Pow2(o) <= |pages|
    ensures Inv(managed, State(g, Mark(pages, p, o, InUse)), map[p := o])
  {
    var s := State(f, pages);
    assert Inv(managed, s, map[]);
    AllocIsFree(managed, s, map[], o, p + Pow2(o) - 1);
    AllocKeeps(managed, s, map[], o, p, State(g, Mark(pages, p, o, InUse)));
    assert map[][p := o] == map[p := o];
  }

  datatype AllocResult = Address(start: nat) | EINVAL | ENOMEM

  // All blocks have an order that exists, and lie inside a page array of n
  // entries when they are to be marked there.
  ghost predicate Callable(cb: Callback, cs: seq<Claim>, n: nat) {
    forall i :: 0 <= i < |cs| ==>
      cs[i].order < MAX_ORDER && (cb.ToPageArray? ==> cs[i].start + Pow2(cs[i].order) <= n)
  }

  // The blocks done and those to be cut from len bytes at page p are cs.
  ghost predicate OnCourse(done: seq<Claim>, p: nat, len: nat, n: nat, cs: seq<Claim>) {
    forall tail :: IsCut(tail, p, len, n) ==> done + tail == cs
  }

  predicate IsCut(tail: seq<Claim>, p: nat, len: nat, n: nat) {
    tail == Cut(p, len, n)
  }

  lemma {:induction false} CourseBegins(p: nat, len: nat, n: nat)
    ensures OnCourse([], p, len, n, Cut(p, len, n))
  {
  }

  lemma {:induction false} CourseEnds(done: seq<Claim>, p: nat, len: nat, cs: seq<Claim>)
    requires OnCourse(done, p, len, 0, cs)
    ensures done == cs
  {
    assert IsCut([], p, len, 0);
  }

  lemma {:induction false} CourseSkips(done: seq<Claim>, p: nat, len: nat, o: nat, n: nat, cs: seq<Claim>)
    requires Cut(p, len, n) == Cut(p, len, o) && OnCourse(done, p, len, n, cs)
    ensures OnCourse(done, p, len, o, cs)
  {
    assert IsCut(Cut(p, len, n), p, len, n);
  }

  lemma {:induction false} CourseStep(done: seq<Claim>, p: nat, len: nat, o: nat, n: nat, cs: seq<Claim>,
                                      same: seq<Claim>, q: nat, rem: nat)
    requires Cut(p, len, n) == same + Cut(q, rem, o) && OnCourse(done, p, len, n, cs)
    ensures done + same + Cut(q, rem, o) == cs && OnCourse(done + same, q, rem, o, cs)
  {
    assert IsCut(Cut(p, len, n), p, len, n);
    Regroup(done, same, Cut(q, rem, o));
  }

  class Frames {
    // The dummy entries that head the lists of each order.
    const heads: seq<Block>
    const pages: array<Page>
    ghost var lists: seq<seq<Block>>
    ghost var nodes: set<Block>
    // First pages of the blocks on each list.
    ghost var free: FreeLists

    // Block i of the list of order o is linked to its neighbours.
    ghost predicate Linked(o: nat, i: nat)
      requires o < MAX_ORDER && o < |heads| && o < |lists| && i < |lists[o]|
      reads this, nodes
    {
      var b := lists[o][i];
      && b in nodes
      && b.order == o && b.depth == |lists[o]| - i
      && b.prev == (if i == 0 then heads[o] else lists[o][i - 1])
      && b.next == (if i + 1 < |lists[o]| then lists[o][i + 1] else null)
      && i < |free[o]|
      && b.start == PAGE_SIZE * free[o][i]
      && b.end == b.start + PAGE_SIZE * Pow2(o) - 1
    }

    ghost predicate Valid()
      reads this, heads, nodes
    {
      && |heads| == |lists| == MAX_ORDER
      && (forall o :: 0 <= o < MAX_ORDER ==>
            && heads[o] !in nodes && heads[o].order == o
            && heads[o].prev == null
            && heads[o].next == (if lists[o] != [] then lists[o][0] else null)
            && |free[o]| == |lists[o]|)
      && (forall o, i :: 0 <= o < MAX_ORDER && 0 <= i < |lists[o]| ==> Linked(o, i))
    }

    // Empty zones, as mm_zones_init leaves them before it claims memory.
    constructor (entries: nat)
      ensures Valid() && fresh(heads) && nodes == {}
      ensures fresh(pages) && pages.Length == entries
      ensures forall o :: 0 <= o < MAX_ORDER ==> free[o] == []
    {
      var hs: seq<Block> := [];
      while |hs| < MAX_ORDER
        invariant |hs| <= MAX_ORDER && fresh(hs)
        invariant forall o :: 0 <= o < |hs| ==> hs[o].order == o && hs[o].prev == null && hs[o].next == null
      {
        var b := new Block();
        b.start, b.end := 0, 0;
        b.order := |hs|;
        hs := hs + [b];
      }
      heads := hs;
      pages := new Page[entries](_ => Page(Invalid, 0, false));
      lists := seq(MAX_ORDER, _ => []);
      nodes := {};
      free := seq(MAX_ORDER, _ => []);
    }

    ghost predicate Unlisted(b: Block)
      reads this
    {
      forall o, i :: 0 <= o < |lists| && 0 <= i < |lists[o]| ==> lists[o][i] != b
    }

    // __get_free_entry
    method GetFreeEntry(order: nat) returns (b: Block)
      requires Valid() && order < MAX_ORDER && free[order] != []
      modifies this, heads, nodes
      ensures Valid() && free == Pop(old(free), order) && nodes == old(nodes)
      ensures b in nodes && Unlisted(b)
      ensures b.start == PAGE_SIZE * old(free)[order][0]
      ensures b.end == b.start + PAGE_SIZE * Pow2(order) - 1
    {
      assert Linked(order, 0);
      assert |lists[order]| > 1 ==> Linked(order, 1);
      b := heads[order].next;
      ListRemove(b);
      ListInitNull(b);
      lists := lists[order := lists[order][1..]];
      free := Pop(free, order);
      forall o, i | 0 <= o < MAX_ORDER && 0 <= i < |lists[o]| ensures Linked(o, i) {
        assert old(Linked(o, if o == order then i + 1 else i));
      }
      forall o, i | 0 <= o < MAX_ORDER && 0 <= i < |lists[o]| ensures lists[o][i] != b { assert Linked(o, i); }
    }

    // Puts b at the front of the list of the given order.
    method AddFree(order: nat, b: Block, ghost p: nat)
      requires Valid() && order < MAX_ORDER
      requires b !in heads && Unlisted(b)
      requires b.start == PAGE_SIZE * p && b.end == b.start + PAGE_SIZE * Pow2(order) - 1
      modifies this, heads, nodes, b
      ensures Valid() && free == Push(old(free), order, p) && nodes == old(nodes) + {b}
    {
      PutFirst(order, b);
      nodes := nodes + {b};
      lists := lists[order := [b] + lists[order]];
      free := Push(free, order, p);
      forall o, i | 0 <= o < MAX_ORDER && o != order && 0 <= i < |lists[o]| ensures Linked(o, i) {
        assert old(Linked(o, i)) && lists[o][i] == old(lists[o][i]);
      }
      forall i | 0 < i < |lists[order]| ensures Linked(order, i) {
        assert old(Linked(order, i - 1)) && lists[order][i] == old(lists[order][i - 1]);
      }
    }

    // x is as before, but for its link back.
    twostate predicate Shifted(x: Block, prev: Block?)
      reads x
    {
      && x.next == old(x.next) && x.order == old(x.order) && x.depth == old(x.depth)
      && x.start == old(x.start) && x.end == old(x.end) && x.prev == prev
    }

    // The fields of b, and the pointers to it.
    method PutFirst(order: nat, b: Block)
      requires Valid() && order < MAX_ORDER
      requires b !in heads && Unlisted(b)
      modifies heads, nodes, b
      ensures heads[order].next == b && b.prev == heads[order] && b.next == old(heads[order].next)
      ensures b.order == order && b.depth == |lists[order]| + 1 && b.start == old(b.start) && b.end == old(b.end)
      ensures forall o, i :: 0 <= o < MAX_ORDER && 0 <= i < |lists[o]| ==>
        Shifted(lists[o][i], if o == order && i == 0 then b else old(lists[o][i].prev))
      ensures forall o :: 0 <= o < MAX_ORDER ==>
        heads[o].order == old(heads[o].order) && heads[o].prev == null
        && (o != order ==> heads[o].next == old(heads[o].next))
    {
      assert lists[order] != [] ==> Linked(order, 0);
      ListAppend(heads[order], b);
      b.order, b.depth := order, |lists[order]| + 1;
      forall o, i | 0 <= o < MAX_ORDER && 0 <= i < |lists[o]|
        ensures Shifted(lists[o][i], if o == order && i == 0 then b else old(lists[o][i].prev))
      {
        assert old(Linked(o, i));
      }
    }

    // __zone_add_block on the normal zone.
    method ZoneAddBlock(start: nat, order: nat)
      requires Valid() && order < MAX_ORDER && start % PAGE_SIZE == 0
      modifies this, heads, nodes
      ensures Valid() && free == Push(old(free), order, start / PAGE_SIZE)
      ensures fresh(nodes - old(nodes))
    {
      ZoneAddNode(start, order, start / PAGE_SIZE);
    }

    // __split_block
    method SplitBlock(req: nat, order: nat) returns (start: nat)
      requires Valid() && req < order < MAX_ORDER && free[order] != []
      modifies this, heads, nodes
      ensures Valid() && fresh(nodes - old(nodes))
      ensures start % PAGE_SIZE == 0
      ensures (free, start / PAGE_SIZE) == Split(Pop(old(free), order), old(free)[order][0], order, req)
    {
      var b := GetFreeEntry(order);
      ghost var p := old(free)[order][0];
      var split := order - 1;
      var size := Pow2(split) * PAGE_SIZE;
      start := b.start + size;
      Shorten(b, size);
      AddFree(split, b, p);
      start := SplitRest(start, req, split, p + Pow2(split));
    }

    // b->end -= size, for a block on no list
    method Shorten(b: Block, size: nat)
      requires Valid() && Unlisted(b) && b.end >= size
      modifies b`end
      ensures Valid() && b.end == old(b.end) - size
    {
      b.end := b.end - size;
      forall o, i | 0 <= o < MAX_ORDER && 0 <= i < |lists[o]| ensures Linked(o, i) { assert old(Linked(o, i)); }
    }

    // The loop of __split_block: splits the block of the given order at start.
    method SplitRest(at: nat, req: nat, order: nat, ghost p: nat) returns (start: nat)
      requires Valid() && req <= order < MAX_ORDER && at == PAGE_SIZE * p
      modifies this, heads, nodes
      ensures Valid() && fresh(nodes - old(nodes))
      ensures start % PAGE_SIZE == 0 && (free, start / PAGE_SIZE) == Split(old(free), p, order, req)
    {
      start := at;
      var split := order;
      ghost var q := p;
      while req != split
        invariant Valid() && fresh(nodes - old(nodes)) && req <= split <= order
        invariant start == PAGE_SIZE * q
        invariant Split(free, q, split, req) == Split(old(free), p, order, req)
        decreases split
      {
        split := split - 1;
        var tmpStart := start;
        start := start + Pow2(split) * PAGE_SIZE;
        ZoneAddNode(tmpStart, split, q);
        q := q + Pow2(split);
      }
    }

    // Links a new node for the block at start.
    method ZoneAddNode(start: nat, order: nat, ghost p: nat)
      requires Valid() && order < MAX_ORDER && start == PAGE_SIZE * p
      modifies this, heads, nodes
      ensures Valid() && free == Push(old(free), order, p)
      ensures fresh(nodes - old(nodes))
    {
      var tmp := new Block();
      forall o, i | 0 <= o < MAX_ORDER && 0 <= i < |lists[o]| ensures lists[o][i] != tmp { assert Linked(o, i); }
      tmp.start := start;
      tmp.end := start + Pow2(order) * PAGE_SIZE - 1;
      AddFree(order, tmp, p);
    }

    // __alloc_mem on the normal zone.
    method AllocMem(order: nat) returns (r: AllocResult)
      requires Valid()
      modifies this, heads, nodes
      ensures Valid() && fresh(nodes - old(nodes))
      ensures order > MAX_ORDER ==> r == EINVAL && free == old(free)
      ensures order <= MAX_ORDER && Alloc(old(free), order) == None ==> r == ENOMEM && free == old(free)
      ensures order <= MAX_ORDER && Alloc(old(free), order).Some? ==>
        r.Address? && r.start % PAGE_SIZE == 0 && Alloc(old(free), order) == Some((free, r.start / PAGE_SIZE))
    {
      if order > MAX_ORDER { return EINVAL; }
      var i := order;
      while i < MAX_ORDER
        invariant order <= i <= MAX_ORDER && Valid() && free == old(free) && nodes == old(nodes)
        invariant forall o :: 0 <= o < MAX_ORDER ==> heads[o].next == old(heads[o].next)
        invariant FirstOrder(free, order) == FirstOrder(free, i)
      {
        if heads[i].next == null {
          i := i + 1;
          continue;
        }
        if i == order {
          var b := GetFreeEntry(i);
          return Address(b.start);
        }
        var start := SplitBlock(order, i);
        return Address(start);
      }
      r := ENOMEM;
    }

    ghost function View(): State
      reads this, pages
    {
      State(free, pages[..])
    }

    // __page_array_add_block
    method PageArrayAddBlock(start: nat, order: nat, kind: PageType)
      requires start % PAGE_SIZE == 0 && start / PAGE_SIZE + Pow2(order) <= pages.Length
      modifies pages
      ensures pages[..] == Mark(old(pages[..]), start / PAGE_SIZE, order, kind)
    {
      var pfn := start / PAGE_SIZE;
      pages[pfn] := Page(kind, order, true);
      var i := 1;
      while i < Pow2(order)
        invariant 1 <= i <= Pow2(order)
        invariant forall q :: 0 <= q < pages.Length ==>
          pages[q] == if pfn <= q < pfn + i then Page(kind, order, q == pfn) else old(pages[q])
      {
        pages[pfn + i] := Page(kind, order, false);
        i := i + 1;
      }
    }

    // mm_block_alloc: None where the kernel panics.
    method BlockAlloc(order: nat, ghost managed: set<nat>, ghost out: Blocks) returns (r: Option<nat>)
      requires Valid() && Inv(managed, View(), out)
      modifies this, heads, nodes, pages
      ensures Valid() && fresh(nodes - old(nodes))
      ensures r == None <==> order > MAX_ORDER || Alloc(old(free), order) == None
      ensures r == None ==> View() == old(View())
      ensures r.Some? ==>
        && r.value % PAGE_SIZE == 0
        && Step(old(View()), Allocated(order, r.value / PAGE_SIZE), View())
        && Inv(managed, View(), out[r.value / PAGE_SIZE := order])
    {
      var a := AllocMem(order);
      if !a.Address? { return None; }
      ghost var p := a.start / PAGE_SIZE;
      AllocIsFree(managed, old(View()), out, order, p + Pow2(order) - 1);
      PageArrayAddBlock(a.start, order, InUse);
      AllocKeeps(managed, old(View()), out, order, p, View());
      r := Some(a.start);
    }

    // mm_block_free: false where the kernel panics because no zone takes the block.
    method BlockFree(address: nat, order: nat, ghost managed: set<nat>, ghost out: Blocks) returns (ok: bool)
      requires Valid() && Inv(managed, View(), out)
      requires InNormal(managed) && address % PAGE_SIZE == 0
      requires order < MAX_ORDER && address / PAGE_SIZE in out && out[address / PAGE_SIZE] == order
      modifies this, heads, nodes, pages
      ensures Valid() && fresh(nodes - old(nodes))
      ensures ok <==> address + Pow2(order) * PAGE_SIZE < ZONE_NORMAL_END
      ensures !ok ==> View() == old(View())
      ensures ok ==> Step(old(View()), Freed(address / PAGE_SIZE, order), View())
      ensures ok ==> Inv(managed, View(), out - {address / PAGE_SIZE})
    {
      assert CoversAt(out, address / PAGE_SIZE, address / PAGE_SIZE);
      ZoneOfNormalBlock(address, address + Pow2(order) * PAGE_SIZE);
      if GetZone(address, address + Pow2(order) * PAGE_SIZE) == NoZone { return false; }
      ghost var p := address / PAGE_SIZE;
      assert CoversAt(out, p, p + Pow2(order) - 1);
      PageArrayAddBlock(address, order, PageType.Free);
      ZoneAddBlock(address, order);
      FreeKeeps(managed, old(View()), out, p, order, View());
      ok := true;
    }

    method Call(cb: Callback, start: nat, order: nat)
      requires Valid() && order < MAX_ORDER && start % PAGE_SIZE == 0
      requires cb.ToPageArray? ==> start / PAGE_SIZE + Pow2(order) <= pages.Length
      modifies this, heads, nodes, pages
      ensures Valid() && fresh(nodes - old(nodes))
      ensures free == if cb.ToZone? then Push(old(free), order, start / PAGE_SIZE) else old(free)
      ensures pages[..] == if cb.ToZone? then old(pages[..]) else Mark(old(pages[..]), start / PAGE_SIZE, order, cb.kind)
    {
      match cb
      case ToZone => ZoneAddBlock(start, order);
      case ToPageArray(kind) => PageArrayAddBlock(start, order, kind);
    }

    // State after the calls for the blocks cs, from free lists f and page array g.
    ghost predicate Called(cb: Callback, cs: seq<Claim>, f: FreeLists, g: seq<Page>)
      requires Callable(cb, cs, |g|)
      reads this, pages
    {
      if cb.ToZone? then free == AddAll(f, cs) && pages[..] == g
      else free == f && pages[..] == MarkAll(g, cs, cb.kind)
    }

    // One call of the callback.
    method CallNext(cb: Callback, start: nat, order: nat, ghost c: Claim, ghost done: seq<Claim>, ghost f: FreeLists,
                    ghost g: seq<Page>)
      requires Valid() && start == PAGE_SIZE * c.start && order == c.order && |g| == pages.Length
      requires Callable(cb, done + [c], |g|)
      requires Callable(cb, done, |g|) && Called(cb, done, f, g)
      modifies this, heads, nodes, pages
      ensures Valid() && fresh(nodes - old(nodes))
      ensures Called(cb, done + [c], f, g)
    {
      assert (done + [c])[..|done|] == done && (done + [c])[|done|] == c;
      Call(cb, start, order);
    }

    // __claim_range
    method ClaimRange(start: nat, end: nat, cb: Callback)
      requires Valid() && start % PAGE_SIZE == 0 && start <= end
      requires Callable(cb, Cut(start / PAGE_SIZE, end - start, MAX_ORDER), pages.Length)
      modifies this, heads, nodes, pages
      ensures Valid() && fresh(nodes - old(nodes))
      ensures Called(cb, Cut(start / PAGE_SIZE, end - start, MAX_ORDER), old(free), old(pages[..]))
    {
      if end - start < PAGE_SIZE {
        CutStart(start / PAGE_SIZE, end - start, MAX_ORDER);
        return;
      }
      ghost var cs := Cut(start / PAGE_SIZE, end - start, MAX_ORDER);
      CourseBegins(start / PAGE_SIZE, end - start, MAX_ORDER);
      ClaimOrders(start, end - start, MAX_ORDER, cb, start / PAGE_SIZE, cs);
    }

    // The outer loop of __claim_range.
    method ClaimOrders(start: nat, length: nat, orders: nat, cb: Callback, ghost first: nat, ghost cs: seq<Claim>)
      requires Valid() && start == PAGE_SIZE * first && orders <= MAX_ORDER
      requires OnCourse([], first, length, orders, cs) && Callable(cb, cs, pages.Length)
      modifies this, heads, nodes, pages
      ensures Valid() && fresh(nodes - old(nodes))
      ensures Called(cb, cs, old(free), old(pages[..]))
    {
      ghost var f, g := free, pages[..];
      var at: nat, len: nat, n: nat := start, length, orders;
      ghost var p: nat, done: seq<Claim> := first, [];
      while n > 0
        invariant n <= orders && Valid() && fresh(nodes - old(nodes))
        invariant at == PAGE_SIZE * p && OnCourse(done, p, len, n, cs)
        invariant Callable(cb, done, pages.Length) && Called(cb, done, f, g)
      {
        n := n - 1;
        at, len, p, done := ClaimOrder(at, len, n, n + 1, cb, p, done, cs, f, g);
      }
      CourseEnds(done, p, len, cs);
    }

    // The body of the outer loop of __claim_range.
    method ClaimOrder(start: nat, len: nat, o: nat, ghost n: nat, cb: Callback, ghost p: nat, ghost before: seq<Claim>,
                      ghost cs: seq<Claim>, ghost f: FreeLists, ghost g: seq<Page>)
      returns (at: nat, rem: nat, ghost q: nat, ghost done: seq<Claim>)
      requires Valid() && o < MAX_ORDER && n == o + 1 && start == PAGE_SIZE * p && |g| == pages.Length
      requires OnCourse(before, p, len, n, cs) && Callable(cb, cs, |g|)
      requires Callable(cb, before, |g|) && Called(cb, before, f, g)
      modifies this, heads, nodes, pages
      ensures Valid() && fresh(nodes - old(nodes))
      ensures at == PAGE_SIZE * q && OnCourse(done, q, rem, o, cs)
      ensures Callable(cb, done, |g|) && Called(cb, done, f, g)
    {
      var num: nat;
      num, rem, q := Fit(len, o, n, p);
      ghost var same := SameOrder(p, o, num, 0);
      if num > 0 {
        CourseStep(before, p, len, o, n, cs, same, q, rem);
        done := before + same;
        at := ClaimSameOrder(start, o, num, cb, p, before, Cut(q, rem, o), cs, f, g, same, q);
      } else {
        CourseSkips(before, p, len, o, n, cs);
        at, rem, q, done := start, len, p, before;
      }
    }

    // How many blocks of order o fit into len bytes, what is left over, and
    // at which page it begins.
    method Fit(len: nat, o: nat, ghost n: nat, ghost p: nat) returns (num: nat, rem: nat, ghost q: nat)
      requires n == o + 1
      ensures CutAt(p, len, o, num, q, rem)
      ensures Cut(p, len, n) == if num == 0 then Cut(p, len, o) else SameOrder(p, o, num, 0) + Cut(q, rem, o)
    {
      num, rem := Divide(len, Bytes(o));
      q := p + Skip(num) * Pow2(o);
      CutStep(p, len, o, n, num, q, rem);
    }

    method Divide(len: nat, size: nat) returns (num: nat, rem: nat)
      requires size > 0
      ensures num == len / size && rem == len % size
    {
      num, rem := len / size, len % size;
    }

    // The inner loop of __claim_range.
    method ClaimSameOrder(start: nat, o: nat, num: nat, cb: Callback, ghost p: nat, ghost before: seq<Claim>,
                          ghost rest: seq<Claim>, ghost cs: seq<Claim>, ghost f: FreeLists, ghost g: seq<Page>,
                          ghost same: seq<Claim>, ghost last: nat)
      returns (at: nat)
      requires Valid() && o < MAX_ORDER && start == PAGE_SIZE * p && |g| == pages.Length
      requires same == SameOrder(p, o, num, 0) && last == p + Skip(num) * Pow2(o)
      requires before + same + rest == cs && Callable(cb, cs, |g|)
      requires Callable(cb, before, |g|) && Called(cb, before, f, g)
      modifies this, heads, nodes, pages
      ensures Valid() && fresh(nodes - old(nodes))
      ensures at == PAGE_SIZE * last
      ensures Callable(cb, before + same, |g|) && Called(cb, before + same, f, g)
    {
      at := start;
      ghost var done, q := before, p;
      var b := 0;
      while b < num
        invariant b <= num && Valid() && fresh(nodes - old(nodes))
        invariant at == PAGE_SIZE * q && q == p + Skip(b) * Pow2(o)
        invariant done + SameOrder(q, o, num, b) + rest == cs
        invariant done + SameOrder(q, o, num, b) == before + same
        invariant Callable(cb, done, |g|) && Called(cb, done, f, g)
      {
        ghost var c := Claim(q, o);
        OneMore(cb, done, c, SameOrder(q + (b + 1) * Pow2(o), o, num, b + 1), rest, |g|);
        CallNext(cb, at, o, c, done, f, g);
        SkipStep(b, o);
        at := at + (b + 1) * Bytes(o);
        q := q + (b + 1) * Pow2(o);
        done := done + [c];
        b := b + 1;
      }
      assert SameOrder(q, o, num, b) == [] && done + [] == done;
    }

    // mm_zones_init for the ranges of the memory map: claims the free ones for
    // the zone, takes a block of the given order for the page array, and marks
    // all ranges in it. None where the kernel panics.
    method ZonesInit(map_: seq<MemRange>, order: nat) returns (r: Option<nat>)
      requires Valid() && ProperMap(map_, pages.Length) && order < MAX_ORDER && pages.Length <= 0x8_0000
      requires forall q: nat :: Count(free, q) == 0
      modifies this, heads, nodes, pages
      ensures Valid() && fresh(nodes - old(nodes))
      ensures InNormal(FreePages(map_, |map_|, pages.Length))
      ensures r.Some? <==> exists j :: 0 <= j < |map_| && Gives(map_[j], order)
      ensures r.Some? ==>
        && r.value % PAGE_SIZE == 0 && PagesMarked(map_, pages[..], r.value / PAGE_SIZE, order)
        && Inv(FreePages(map_, |map_|, pages.Length), View(), map[r.value / PAGE_SIZE := order])
    {
      NothingServed(free);
      FreeNormal(map_, pages.Length);
      ClaimFree(map_);
      ghost var f := free;
      var a := AllocMem(order);
      if !a.Address? { return None; }
      PagesInit(map_, order, a.start, f);
      r := Some(a.start);
    }

    // The page array: empty, then marked range by range, with its own block in use.
    method PagesInit(map_: seq<MemRange>, order: nat, start: nat, ghost f: FreeLists)
      requires Valid() && ProperMap(map_, pages.Length) && order < MAX_ORDER && start % PAGE_SIZE == 0
      requires RangesClaimed(map_, |map_|, pages.Length, f) && Alloc(f, order) == Some((free, start / PAGE_SIZE))
      modifies this, heads, nodes, pages
      ensures Valid() && fresh(nodes - old(nodes))
      ensures Inv(FreePages(map_, |map_|, pages.Length), View(), map[start / PAGE_SIZE := order])
      ensures PagesMarked(map_, pages[..], start / PAGE_SIZE, order)
    {
      ClearPages();
      MarkRanges(map_);
      RangesReady(map_, f, free, start / PAGE_SIZE, order, pages[..]);
      ghost var g := pages[..];
      PageArrayAddBlock(start, order, InUse);
      BlockMarked(map_, g, pages[..], start / PAGE_SIZE, order);
    }

    // The first pass over the memory map, for the zone.
    method ClaimFree(map_: seq<MemRange>)
      requires Valid() && ProperMap(map_, pages.Length)
      requires (forall q: nat :: Count(free, q) == 0) && RangesServed(map_, 0, free)
      modifies this, heads, nodes, pages
      ensures Valid() && fresh(nodes - old(nodes))
      ensures RangesClaimed(map_, |map_|, pages.Length, free) && RangesServed(map_, |map_|, free)
    {
      var i := 0;
      while i < |map_|
        invariant i <= |map_| && Valid() && fresh(nodes - old(nodes))
        invariant RangesClaimed(map_, i, pages.Length, free) && RangesServed(map_, i, free)
      {
        if map_[i].kind == PageType.Free {
          ClaimForZone(map_[i], map_, i);
        } else {
          SkipRange(map_, i, pages.Length);
          NotServed(map_, i, free);
        }
        i := i + 1;
      }
    }

    // The second pass, for the page array.
    method MarkRanges(map_: seq<MemRange>)
      requires Valid() && ProperMap(map_, pages.Length)
      requires forall q :: 0 <= q < pages.Length ==> pages[q].kind == Invalid
      modifies this, heads, nodes, pages
      ensures Valid() && fresh(nodes - old(nodes)) && free == old(free)
      ensures RangesMarked(map_, |map_|, pages[..])
    {
      var i := 0;
      while i < |map_|
        invariant i <= |map_| && Valid() && fresh(nodes - old(nodes)) && free == old(free)
        invariant RangesMarked(map_, i, pages[..])
      {
        MarkRange(map_[i], map_, i);
        i := i + 1;
      }
    }

    // The kmemset of the page array.
    method ClearPages()
      modifies pages
      ensures forall q :: 0 <= q < pages.Length ==> pages[q].kind == Invalid
    {
      var i := 0;
      while i < pages.Length
        invariant i <= pages.Length
        invariant forall q :: 0 <= q < i ==> pages[q].kind == Invalid
      {
        pages[i] := Page(Invalid, 0, false);
        i := i + 1;
      }
    }

    // mm_claim_range for one free range, as far as the normal zone goes.
    method ClaimForZone(m: MemRange, ghost map_: seq<MemRange>, ghost i: nat)
      requires Valid() && ProperMap(map_, pages.Length) && i < |map_| && m == map_[i] && m.kind == PageType.Free
      requires RangesClaimed(map_, i, pages.Length, free) && RangesServed(map_, i, free)
      modifies this, heads, nodes, pages
      ensures Valid() && fresh(nodes - old(nodes))
      ensures RangesClaimed(map_, i + 1, pages.Length, free) && RangesServed(map_, i + 1, free)
    {
      NormalProper(m, pages.Length);
      ghost var claimed := GetZone(m.start, m.end) == Normal || (m.start < ZONE_NORMAL_START && m.end > ZONE_DMA_END);
      if GetZone(m.start, m.end) == Normal { ClaimPart(m, m, map_, i); }
      if m.start < ZONE_NORMAL_START && m.end > ZONE_DMA_END {
        ClaimPart(m, m.(start := ZONE_NORMAL_START), map_, i);
      }
      if !claimed {
        NothingMore(map_, i, pages.Length);
        NotServed(map_, i, free);
      }
    }

    // The call of __claim_range for the part of a free range that lies in the
    // normal zone.
    method ClaimPart(ghost m: MemRange, n: MemRange, ghost map_: seq<MemRange>, ghost i: nat)
      requires Valid() && ProperMap(map_, pages.Length) && i < |map_| && m == map_[i] && m.kind == PageType.Free
      requires n == m.NormalPart() && n.Proper(pages.Length)
      requires RangesClaimed(map_, i, pages.Length, free) && RangesServed(map_, i, free)
      modifies this, heads, nodes, pages
      ensures Valid() && fresh(nodes - old(nodes))
      ensures RangesClaimed(map_, i + 1, pages.Length, free) && RangesServed(map_, i + 1, free)
    {
      ghost var p, e := n.start / PAGE_SIZE, n.end / PAGE_SIZE;
      ghost var cs := Cut(p, n.end - n.start, MAX_ORDER);
      ProperTiles(n, pages.Length);
      ClaimRange(n.start, n.end, ToZone);
      OneRangeClaimed(map_, i, pages.Length, old(free), cs);
      OneRangeServed(map_, i, old(free), p, n.end - n.start, cs);
    }

    // __claim_range_postinit for one range.
    method MarkRange(m: MemRange, ghost map_: seq<MemRange>, ghost i: nat)
      requires Valid() && ProperMap(map_, pages.Length) && i < |map_| && m == map_[i]
      requires RangesMarked(map_, i, pages[..])
      modifies this, heads, nodes, pages
      ensures Valid() && fresh(nodes - old(nodes)) && free == old(free)
      ensures RangesMarked(map_, i + 1, pages[..])
    {
      ghost var p, e := m.start / PAGE_SIZE, m.end / PAGE_SIZE;
      ghost var cs := Cut(p, m.end - m.start, MAX_ORDER);
      ProperTiles(m, pages.Length);
      ClaimRange(m.start, m.end, ToPageArray(m.kind));
      OneRangeMarked(map_, i, old(pages[..]), pages[..], cs);
    }
  }

  // The free lists hold each page that was claimed from the first i ranges once.
  ghost predicate RangesClaimed(rs: seq<MemRange>, i: nat, n: nat, f: FreeLists)
    requires i <= |rs|
  {
    forall q: nat :: Count(f, q) == if q in FreePages(rs, i, n) then 1 else 0
  }

  lemma {:induction false} OneRangeClaimed(rs: seq<MemRange>, i: nat, n: nat, f: FreeLists, cs: seq<Claim>)
    requires ProperMap(rs, n) && i < |rs| && rs[i].kind == PageType.Free && RangesClaimed(rs, i, n, f)
    requires forall k :: 0 <= k < |cs| ==> cs[k].order < MAX_ORDER
    requires var r := rs[i].NormalPart(); Tile(cs, r.start / PAGE_SIZE, r.end / PAGE_SIZE)
    ensures RangesClaimed(rs, i + 1, n, AddAll(f, cs))
  {
    var r := rs[i].NormalPart();
    forall q: nat ensures Count(AddAll(f, cs), q) == if q in FreePages(rs, i + 1, n) then 1 else 0 {
      CountAddAll(f, cs, r.start / PAGE_SIZE, r.end / PAGE_SIZE, q);
      OneRangeMore(rs, i, n, q);
    }
  }

  // The pages of the first i ranges are marked as the ranges say.
  ghost predicate RangesMarked(rs: seq<MemRange>, i: nat, g: seq<Page>)
    requires i <= |rs|
  {
    && (forall j, q: nat :: 0 <= j < i && rs[j].Has(q) && q < |g| ==> g[q].kind == rs[j].kind)
    && (forall q: nat :: q < |g| && (forall j :: 0 <= j < i ==> !rs[j].Has(q)) ==> g[q].kind == Invalid)
  }

  // The same, but for the block of order o at page p, which is in use.
  ghost predicate PagesMarked(rs: seq<MemRange>, g: seq<Page>, p: nat, o: nat) {
    && (forall q: nat :: q < |g| && Within(p, o, q) ==> g[q].kind == InUse)
    && (forall j, q: nat :: 0 <= j < |rs| && rs[j].Has(q) && q < |g| && !Within(p, o, q) ==> g[q].kind == rs[j].kind)
    && (forall q: nat :: q < |g| && !Within(p, o, q) && (forall j :: 0 <= j < |rs| ==> !rs[j].Has(q)) ==>
          g[q].kind == Invalid)
  }

  lemma {:induction false} BlockMarked(rs: seq<MemRange>, g: seq<Page>, h: seq<Page>, p: nat, o: nat)
    requires RangesMarked(rs, |rs|, g) && p + Pow2(o) <= |g| && h == Mark(g, p, o, InUse)
    ensures PagesMarked(rs, h, p, o)
  {
  }

  // An order can be served once one of the first i ranges gives enough pages.
  ghost predicate RangesServed(rs: seq<MemRange>, i: nat, f: FreeLists)
    requires i <= |rs|
  {
    forall o :: 0 <= o < MAX_ORDER ==>
      (FirstOrder(f, o) < MAX_ORDER <==> exists j :: 0 <= j < i && Gives(rs[j], o))
  }

  lemma {:induction false} OneRangeServed(rs: seq<MemRange>, i: nat, f: FreeLists, p: nat, len: nat, cs: seq<Claim>)
    requires i < |rs| && rs[i].kind == PageType.Free && RangesServed(rs, i, f)
    requires len == rs[i].NormalPart().end - rs[i].NormalPart().start && cs == Cut(p, len, MAX_ORDER)
    requires forall k :: 0 <= k < |cs| ==> cs[k].order < MAX_ORDER
    ensures RangesServed(rs, i + 1, AddAll(f, cs))
  {
    forall o | 0 <= o < MAX_ORDER
      ensures FirstOrder(AddAll(f, cs), o) < MAX_ORDER <==> exists j :: 0 <= j < i + 1 && Gives(rs[j], o)
    {
      AddAllServes(f, cs, o);
      CutAtLeast(p, len, MAX_ORDER, o);
      if FirstOrder(f, o) < MAX_ORDER { var j :| 0 <= j < i && Gives(rs[j], o); }
    }
  }

  lemma {:induction false} NotServed(rs: seq<MemRange>, i: nat, f: FreeLists)
    requires i < |rs| && RangesServed(rs, i, f)
    requires rs[i].kind != PageType.Free || rs[i].NormalPart().start == rs[i].NormalPart().end
    ensures RangesServed(rs, i + 1, f)
  {
    forall o ensures !Gives(rs[i], o) {}
  }

  lemma {:induction false} NothingServed(f: FreeLists)
    requires forall q: nat :: Count(f, q) == 0
    ensures forall o :: 0 <= o < MAX_ORDER ==> FirstOrder(f, o) == MAX_ORDER
  {
    forall o | 0 <= o < MAX_ORDER ensures FirstOrder(f, o) == MAX_ORDER {
      var j := FirstOrder(f, o);
      if j < MAX_ORDER {
        assert At(f, j, 0, f[j][0]);
        CountPositive(f, f[j][0]);
      }
    }
  }

  lemma {:induction false} OneRangeMarked(rs: seq<MemRange>, i: nat, g: seq<Page>, h: seq<Page>, cs: seq<Claim>)
    requires ProperMap(rs, |g|) && i < |rs| && RangesMarked(rs, i, g)
    requires forall k :: 0 <= k < |cs| ==> cs[k].start + Pow2(cs[k].order) <= |g|
    requires Tile(cs, rs[i].start / PAGE_SIZE, rs[i].end / PAGE_SIZE) && h == MarkAll(g, cs, rs[i].kind)
    ensures RangesMarked(rs, i + 1, h)
  {
    forall j, q: nat | 0 <= j < i + 1 && rs[j].Has(q) && q < |h| ensures h[q].kind == rs[j].kind {
      KindMarkAll(g, cs, rs[i].kind, rs[i].start / PAGE_SIZE, rs[i].end / PAGE_SIZE, q);
    }
    forall q: nat | q < |h| && (forall j :: 0 <= j < i + 1 ==> !rs[j].Has(q)) ensures h[q].kind == Invalid {
      KindMarkAll(g, cs, rs[i].kind, rs[i].start / PAGE_SIZE, rs[i].end / PAGE_SIZE, q);
      assert !rs[i].Has(q);
    }
  }

  lemma {:induction false} OneRangeMore(rs: seq<MemRange>, i: nat, n: nat, q: nat)
    requires ProperMap(rs, n) && i < |rs|
    ensures q in FreePages(rs, i + 1, n) <==>
      q in FreePages(rs, i, n) || (rs[i].NormalPart().Has(q) && rs[i].kind == PageType.Free)
    ensures rs[i].NormalPart().Has(q) ==> q !in FreePages(rs, i, n)
  {
    assert rs[..i + 1] == rs[..i] + [rs[i]];
    NormalProper(rs[i], n);
    if FreeIn(rs[..i], q) {
      var j :| 0 <= j < i && rs[..i][j].NormalPart().Has(q) && rs[..i][j].kind == PageType.Free;
      NormalProper(rs[j], n);
      assert rs[..i + 1][j] == rs[j] && rs[j].Has(q);
    }
    if FreeIn(rs[..i + 1], q) {
      var j :| 0 <= j < i + 1 && rs[..i + 1][j].NormalPart().Has(q) && rs[..i + 1][j].kind == PageType.Free;
      assert j < i ==> rs[..i][j] == rs[j];
    }
    if rs[i].NormalPart().Has(q) { assert rs[..i + 1][i] == rs[i]; }
  }

  lemma {:induction false} ManagedMarked(rs: seq<MemRange>, g: seq<Page>)
    requires ProperMap(rs, |g|) && RangesMarked(rs, |rs|, g)
    ensures forall q :: q in FreePages(rs, |rs|, |g|) ==> q < |g| && g[q].kind == PageType.Free
  {
    forall q | q in FreePages(rs, |rs|, |g|) ensures g[q].kind == PageType.Free {
      var i :| 0 <= i < |rs| && rs[i].NormalPart().Has(q) && rs[i].kind == PageType.Free;
      NormalProper(rs[i], |g|);
    }
  }

  lemma {:induction false} RangesReady(rs: seq<MemRange>, f: FreeLists, g: FreeLists, p: nat, o: nat, pages: seq<Page>)
    requires ProperMap(rs, |pages|) && RangesClaimed(rs, |rs|, |pages|, f) && RangesMarked(rs, |rs|, pages)
    requires o < MAX_ORDER && Alloc(f, o) == Some((g, p))
    ensures p + Pow2(o) <= |pages|
    ensures Inv(FreePages(rs, |rs|, |pages|), State(g, Mark(pages, p, o, InUse)), map[p := o])
  {
    ManagedMarked(rs, pages);
    InitialState(FreePages(rs, |rs|, |pages|), f, g, p, o, pages);
  }

  lemma {:induction false} SkipRange(rs: seq<MemRange>, i: nat, n: nat)
    requires ProperMap(rs, n) && i < |rs| && rs[i].kind != PageType.Free
    ensures FreePages(rs, i + 1, n) == FreePages(rs, i, n)
  {
    forall q: nat ensures q in FreePages(rs, i + 1, n) <==> q in FreePages(rs, i, n) { OneRangeMore(rs, i, n, q); }
  }

  lemma {:induction false} NothingMore(rs: seq<MemRange>, i: nat, n: nat)
    requires ProperMap(rs, n) && i < |rs| && rs[i].NormalPart().start == rs[i].NormalPart().end
    ensures FreePages(rs, i + 1, n) == FreePages(rs, i, n)
  {
    forall q: nat ensures q in FreePages(rs, i + 1, n) <==> q in FreePages(rs, i, n) { OneRangeMore(rs, i, n, q); }
  }

  lemma {:induction false} Regroup(a: seq<Claim>, b: seq<Claim>, c: seq<Claim>)
    ensures a + (b + c) == a + b + c
  {
  }

  lemma {:induction false} OneMore(cb: Callback, done: seq<Claim>, c: Claim, tail: seq<Claim>, rest: seq<Claim>, n: nat)
    requires Callable(cb, done + ([c] + tail) + rest, n)
    ensures done + ([c] + tail) == (done + [c]) + tail
    ensures Callable(cb, done + [c], n)
  {
    var cs := done + ([c] + tail) + rest;
    assert forall i :: 0 <= i < |done + [c]| ==> (done + [c])[i] == cs[i];
  }
}
