// The slab allocator of src/mm/slab.c: entries of one size cut from pages, and
// freed entries handed out again.
module Slab {
  import opened Common

  const FRESH_BLOCK: nat := 8192                  // a block of order 1
  const SIZE_T: nat := 0x1_0000_0000_0000_0000

  // Memory of len bytes at mem.
  datatype Block = Block(mem: nat, len: nat)

  // The part of a cfe_t that is still to be issued: num entries from next on.
  datatype Source = Source(block: Block, next: nat, num: nat)

  // A cache, the pages on __free_list, and the order-1 blocks that
  // mm_block_alloc will hand out next.
  datatype Cache = Cache(item: nat, source: Option<Source>, chunks: seq<nat>, pool: seq<Block>, blocks: seq<nat>)

  // MULTIPLE_OF_2
  function Even(size: nat): (item: nat)
    ensures item % 2 == 0 && size <= item <= size + 1
  {
    size + size % 2
  }

  // __alloc_cfe: None where the kernel panics.
  function Draw(c: Cache): Option<Cache>
    requires c.item > 0
  {
    if c.pool != [] then
      var n := (PAGE_SIZE / c.item + SIZE_T - 1) % SIZE_T;
      Some(c.(source := Some(Source(c.pool[0], c.pool[0].mem, n)), pool := c.pool[1..]))
    else if c.blocks != [] then
      var b := Block(c.blocks[0], FRESH_BLOCK);
      Some(c.(source := Some(Source(b, b.mem, PAGE_SIZE)), blocks := c.blocks[1..]))
    else None
  }

  // Issues the next entry of the source.
  function Bump(c: Cache): (Cache, nat)
    requires c.source.Some?
  {
    var s := c.source.value;
    var left := (s.num + SIZE_T - 1) % SIZE_T;
    (c.(source := if left == 0 then None else Some(s.(next := s.next + c.item, num := left))), s.next)
  }

  // mm_cache_alloc_entry
  function Alloc(c: Cache): Option<(Cache, nat)>
    requires c.item > 0
  {
    if c.chunks != [] then Some((c.(chunks := c.chunks[1..]), c.chunks[0]))
    else if c.source.Some? then Some(Bump(c))
    else match Draw(c)
      case None => None
      case Some(d) => Some(Bump(d))
  }

  // An allocation fails exactly when nothing is left anywhere. It takes the first
  // recycled entry, or else the next one of the source, or else the first of a
  // new source: a pooled page if there is one.
  lemma {:induction false} AllocExactly(c: Cache)
    requires c.item > 0
    ensures Alloc(c) == None <==> c.chunks == [] && c.source == None && c.pool == [] && c.blocks == []
    ensures Alloc(c).Some? ==> var (d, a) := Alloc(c).value;
      && d.item == c.item && (c.chunks != [] || c.source.Some? ==> d.pool == c.pool && d.blocks == c.blocks)
      && if c.chunks != [] then a == c.chunks[0] && d.chunks == c.chunks[1..] && d.source == c.source
         else d.chunks == [] && a == Front(c)
  {
  }

  // Where the entries that were never issued begin.
  function Front(c: Cache): nat
    requires c.source.Some? || c.pool != [] || c.blocks != []
  {
    if c.source.Some? then c.source.value.next
    else if c.pool != [] then c.pool[0].mem
    else c.blocks[0]
  }

  // n allocations, and the entries that they gave.
  function Allocs(c: Cache, n: nat): Option<(Cache, seq<nat>)>
    requires c.item > 0
    ensures Allocs(c, n).Some? ==> Allocs(c, n).value.0.item == c.item
  {
    if n == 0 then Some((c, [])) else
      match Allocs(c, n - 1)
      case None => None
      case Some((d, es)) =>
        match Alloc(d)
        case None => None
        case Some((e, a)) => Some((e, es + [a]))
  }

  // A source of num entries issues those that lie one behind the other from next
  // on, and then is used up.
  lemma {:induction false} SourceIssues(c: Cache, n: nat)
    requires c.item > 0 && c.chunks == [] && c.source.Some? && 0 < c.source.value.num < SIZE_T
    requires n <= c.source.value.num
    ensures Allocs(c, n).Some?
    ensures var s, (d, es) := c.source.value, Allocs(c, n).value;
      && |es| == n && (forall k :: 0 <= k < n ==> es[k] == s.next + k * c.item)
      && d == c.(source := if n == s.num then None else Some(s.(next := s.next + n * c.item, num := s.num - n)))
  {
    if n > 0 {
      SourceIssues(c, n - 1);
      var s := c.source.value;
      assert s.next + (n - 1) * c.item + c.item == s.next + n * c.item;
    }
  }

  // A pooled page counts one entry less than would fit, a fresh block as many as
  // a page has bytes.
  lemma {:induction false} DrawExactly(c: Cache)
    requires 0 < c.item <= PAGE_SIZE
    ensures Draw(c) == None <==> c.pool == [] && c.blocks == []
    ensures Draw(c).Some? ==> var d := Draw(c).value;
      && d.source.Some? && d.source.value.next == d.source.value.block.mem
      && d.source.value.num == (if c.pool == [] then PAGE_SIZE else PAGE_SIZE / c.item - 1)
  {
    Divides(PAGE_SIZE, c.item);
  }

  // mm_cache_free_entry: the entry goes behind the first chunk.
  function Free(c: Cache, entry: nat): Cache {
    c.(chunks := if c.chunks == [] then [entry] else [c.chunks[0], entry] + c.chunks[1..])
  }

  // The entry freed last is issued next, or after one that was freed before.
  lemma {:induction false} FreedNext(c: Cache, entry: nat)
    requires c.item > 0
    ensures Alloc(Free(c, entry)).Some?
    ensures var (d, a) := Alloc(Free(c, entry)).value;
      if c.chunks == [] then a == entry && d == c
      else a == c.chunks[0] && Alloc(d) == Some((c.(chunks := c.chunks[1..]), entry))
  {
  }

  // ----- When a source is sound

  // All entries that the source counts fit in its block, and there is one.
  predicate Sound(s: Source, item: nat) {
    0 < s.num < SIZE_T && s.block.mem <= s.next && s.next + s.num * item <= s.block.mem + s.block.len
  }

  // A page from the pool is a sound source exactly for items of at most 2048
  // bytes, and a fresh block exactly for items of at most 2 bytes: its count is
  // the page size whatever the item size is.
  lemma {:induction false} DrawIsSound(c: Cache)
    requires 0 < c.item <= PAGE_SIZE && Draw(c).Some?
    requires c.pool != [] ==> PAGE_SIZE <= c.pool[0].len
    ensures Sound(Draw(c).value.source.value, c.item) <==> c.item <= if c.pool != [] then 2048 else 2
  {
    var s := Draw(c).value.source.value;
    if c.pool != [] {
      var n := PAGE_SIZE / c.item;
      assert n >= 1 && n * c.item <= PAGE_SIZE by { Divides(PAGE_SIZE, c.item); }
      assert s.num == n - 1;
      assert (n - 1) * c.item == n * c.item - c.item;
      if c.item <= 2048 { AtLeastTwo(c.item); }
      if c.item > 2048 { AtMostOne(c.item); }
    }
  }

  lemma {:induction false} Divides(x: nat, d: nat)
    requires 0 < d <= x
    ensures x / d >= 1 && x / d * d <= x
  {
    assert x == x / d * d + x % d;
  }

  lemma {:induction false} AtLeastTwo(d: nat)
    requires 0 < d <= 2048
    ensures PAGE_SIZE / d >= 2
  {
    var q := PAGE_SIZE / d;
    assert PAGE_SIZE == q * d + PAGE_SIZE % d;
    if q <= 1 { Small(q, d); }
  }

  lemma {:induction false} AtMostOne(d: nat)
    requires d > 2048
    ensures PAGE_SIZE / d <= 1
  {
    var q := PAGE_SIZE / d;
    assert PAGE_SIZE == q * d + PAGE_SIZE % d;
    if q >= 2 { Large(q, d); }
  }

  lemma {:induction false} Small(q: nat, d: nat)
    requires q <= 1
    ensures q * d <= d
  {
  }

  lemma {:induction false} Large(q: nat, d: nat)
    requires q >= 2
    ensures q * d >= 2 * d
  {
  }

  // Every entry of a source lies in its block exactly when the source is sound.
  lemma {:induction false} SoundMeansInside(s: Source, item: nat)
    requires 0 < s.num < SIZE_T && s.block.mem <= s.next && item > 0
    ensures Sound(s, item) <==>
      forall k: nat :: k < s.num ==> EntryInside(s.block, s.next + k * item, item)
  {
    if Sound(s, item) {
      forall k: nat | k < s.num ensures EntryInside(s.block, s.next + k * item, item) { Times(k + 1, s.num, item); }
    } else {
      var k := s.num - 1;
      assert k * item + item == s.num * item;
      assert !EntryInside(s.block, s.next + k * item, item);
    }
  }

  lemma {:induction false} Times(a: nat, b: nat, item: nat)
    requires a <= b
    ensures a * item <= b * item && (a > 0 ==> (a - 1) * item + item == a * item)
  {
  }

  predicate EntryInside(b: Block, a: nat, item: nat) {
    b.mem <= a && a + item <= b.mem + b.len
  }

  // ----- How often a byte is accounted for

  function In(a: nat, n: nat, x: nat): nat {
    if a <= x < a + n then 1 else 0
  }

  function CountEntries(l: seq<nat>, n: nat, x: nat): nat {
    if l == [] then 0 else In(l[0], n, x) + CountEntries(l[1..], n, x)
  }

  function CountBlocks(l: seq<Block>, x: nat): nat {
    if l == [] then 0 else In(l[0].mem, l[0].len, x) + CountBlocks(l[1..], x)
  }

  // A cache without what all caches share, and its live entries.
  datatype Part = Part(item: nat, source: Option<Source>, chunks: seq<nat>, live: seq<nat>)

  function PartOf(c: Cache, live: seq<nat>): Part {
    Part(c.item, c.source, c.chunks, live)
  }

  // Uses of byte x by live entries, recycled entries and entries still to be
  // issued by the source.
  function OwnUses(p: Part, x: nat): nat {
    CountEntries(p.live, p.item, x) + CountEntries(p.chunks, p.item, x) +
    if p.source == None then 0 else In(p.source.value.next, p.source.value.num * p.item, x)
  }

  // Uses by pooled pages and blocks not yet allocated, which all caches share.
  function PoolUses(pool: seq<Block>, blocks: seq<nat>, x: nat): nat {
    CountBlocks(pool, x) + CountEntries(blocks, FRESH_BLOCK, x)
  }

  function Uses(c: Cache, live: seq<nat>, x: nat): nat {
    OwnUses(PartOf(c, live), x) + PoolUses(c.pool, c.blocks, x)
  }

  predicate InsideSome(bs: seq<Block>, a: nat, item: nat) {
    exists b :: b in bs && EntryInside(b, a, item)
  }

  // All entries lie in one of the blocks bs, and the source is sound.
  ghost predicate Inside(bs: seq<Block>, c: Cache, live: seq<nat>) {
    && 0 < c.item <= PAGE_SIZE
    && (forall a :: a in live || a in c.chunks ==> InsideSome(bs, a, c.item))
    && (c.source.Some? ==> c.source.value.block in bs && Sound(c.source.value, c.item))
    && (forall b :: b in c.pool ==> b in bs && PAGE_SIZE <= b.len)
    && (forall b :: b in c.blocks ==> Block(b, FRESH_BLOCK) in bs)
  }

  // And no byte has two uses.
  ghost predicate Inv(bs: seq<Block>, c: Cache, live: seq<nat>) {
    Inside(bs, c, live) && forall x: nat :: Uses(c, live, x) <= 1
  }

  // The next entry does not come from a page whose source would be unsound.
  predicate Fed(c: Cache) {
    c.chunks != [] || c.source.Some? || c.item <= if c.pool != [] then 2048 else 2
  }

  function Drop(l: seq<nat>, i: nat): seq<nat>
    requires i < |l|
  {
    l[..i] + l[i + 1..]
  }

  lemma {:induction false} CountAppend(l: seq<nat>, m: seq<nat>, n: nat, x: nat)
    ensures CountEntries(l + m, n, x) == CountEntries(l, n, x) + CountEntries(m, n, x)
  {
    if l == [] {
      assert l + m == m;
    } else {
      CountAppend(l[1..], m, n, x);
      assert (l + m)[1..] == l[1..] + m;
    }
  }

  lemma {:induction false} CountDrop(l: seq<nat>, i: nat, n: nat, x: nat)
    requires i < |l|
    ensures CountEntries(l, n, x) == CountEntries(Drop(l, i), n, x) + In(l[i], n, x)
  {
    assert l == l[..i] + l[i..] && l[i..][1..] == l[i + 1..];
    CountAppend(l[..i], l[i..], n, x);
    CountAppend(l[..i], l[i + 1..], n, x);
  }

  lemma {:induction false} CountOne(a: nat, n: nat, x: nat)
    ensures CountEntries([a], n, x) == In(a, n, x)
  {
    assert [a][1..] == [];
  }

  // A draw turns a pooled page or a fresh block into the source.
  lemma {:induction false} DrawKeeps(bs: seq<Block>, c: Cache, live: seq<nat>)
    requires Inside(bs, c, live) && c.source == None && Fed(c) && c.chunks == [] && Draw(c).Some?
    ensures Inside(bs, Draw(c).value, live)
    ensures forall x: nat :: Uses(Draw(c).value, live, x) <= Uses(c, live, x)
  {
    DrawIsSound(c);
  }

  lemma {:induction false} BumpKeeps(bs: seq<Block>, c: Cache, live: seq<nat>)
    requires Inside(bs, c, live) && c.source.Some?
    ensures var (d, a) := Bump(c);
      Inside(bs, d, live + [a]) && forall x: nat :: Uses(d, live + [a], x) == Uses(c, live, x)
  {
    var (d, a) := Bump(c);
    var s := c.source.value;
    assert s.num * c.item == (s.num - 1) * c.item + c.item;
    forall x: nat ensures Uses(d, live + [a], x) == Uses(c, live, x) {
      CountAppend(live, [a], c.item, x);
      CountOne(a, c.item, x);
    }
    Times(1, s.num, c.item);
    assert EntryInside(s.block, a, c.item);
  }

  lemma {:induction false} ReuseKeeps(bs: seq<Block>, c: Cache, live: seq<nat>)
    requires Inside(bs, c, live) && c.chunks != []
    ensures var a := c.chunks[0]; var d := c.(chunks := c.chunks[1..]);
      Inside(bs, d, live + [a]) && forall x: nat :: Uses(d, live + [a], x) == Uses(c, live, x)
  {
    var a := c.chunks[0];
    var d := c.(chunks := c.chunks[1..]);
    forall x: nat ensures Uses(d, live + [a], x) == Uses(c, live, x) {
      CountAppend(live, [a], c.item, x);
      CountOne(a, c.item, x);
    }
  }

  // An allocation adds no use to any byte.
  lemma {:induction false} AllocUses(bs: seq<Block>, c: Cache, live: seq<nat>)
    requires Inside(bs, c, live) && Fed(c) && Alloc(c).Some?
    ensures var (d, a) := Alloc(c).value;
      Inside(bs, d, live + [a]) && forall x: nat :: Uses(d, live + [a], x) <= Uses(c, live, x)
  {
    if c.chunks != [] {
      ReuseKeeps(bs, c, live);
    } else if c.source.Some? {
      BumpKeeps(bs, c, live);
    } else {
      DrawKeeps(bs, c, live);
      BumpKeeps(bs, Draw(c).value, live);
    }
  }

  lemma {:induction false} FreeUses(bs: seq<Block>, c: Cache, live: seq<nat>, i: nat)
    requires Inside(bs, c, live) && i < |live|
    ensures Inside(bs, Free(c, live[i]), Drop(live, i))
    ensures forall x: nat :: Uses(Free(c, live[i]), Drop(live, i), x) == Uses(c, live, x)
  {
    var d := Free(c, live[i]);
    forall x: nat ensures Uses(d, Drop(live, i), x) == Uses(c, live, x) {
      CountDrop(live, i, c.item, x);
      CountOne(live[i], c.item, x);
      if c.chunks != [] { CountSecond(c.chunks, live[i], c.item, x); }
    }
  }

  lemma {:induction false} CountSecond(l: seq<nat>, a: nat, n: nat, x: nat)
    requires l != []
    ensures CountEntries([l[0], a] + l[1..], n, x) == CountEntries(l, n, x) + In(a, n, x)
  {
    var h, t := l[0], l[1..];
    assert l == [h] + t && [h, a] + t == [h] + ([a] + t);
    CountAppend([h], t, n, x);
    CountAppend([h], [a] + t, n, x);
    CountAppend([a], t, n, x);
    CountOne(a, n, x);
  }

  lemma {:induction false} AllocKeeps(bs: seq<Block>, c: Cache, live: seq<nat>)
    requires Inv(bs, c, live) && Fed(c) && Alloc(c).Some?
    ensures var (d, a) := Alloc(c).value; Inv(bs, d, live + [a])
  {
    AllocUses(bs, c, live);
    var (d, a) := Alloc(c).value;
    forall x: nat ensures Uses(d, live + [a], x) <= 1 { assert Uses(d, live + [a], x) <= Uses(c, live, x); }
  }

  lemma {:induction false} FreeKeeps(bs: seq<Block>, c: Cache, live: seq<nat>, i: nat)
    requires Inv(bs, c, live) && i < |live|
    ensures Inv(bs, Free(c, live[i]), Drop(live, i))
  {
    FreeUses(bs, c, live, i);
    var d, l := Free(c, live[i]), Drop(live, i);
    forall x: nat ensures Uses(d, l, x) <= 1 { assert Uses(d, l, x) == Uses(c, live, x); }
  }

  // ----- Runs

  datatype Event = Got(entry: nat) | Gave(i: nat)

  function LiveAfter(es: seq<Event>): seq<nat> {
    if es == [] then [] else
      var l := LiveAfter(es[..|es| - 1]);
      match es[|es| - 1]
      case Got(a) => l + [a]
      case Gave(i) => if i < |l| then Drop(l, i) else l
  }

  // One call, on a cache whose live entries are live.
  ghost predicate Step(c: Cache, live: seq<nat>, e: Event, d: Cache) {
    c.item > 0 &&
    match e
    case Got(a) => Fed(c) && Alloc(c) == Some((d, a))
    case Gave(i) => i < |live| && d == Free(c, live[i])
  }

  // es[k] leads from cs[k] to cs[k + 1].
  ghost predicate Run(cs: seq<Cache>, es: seq<Event>)
    decreases |es|
  {
    && |cs| == |es| + 1
    && (es != [] ==>
      var n := |es| - 1;
      Run(cs[..|es|], es[..n]) && Step(cs[n], LiveAfter(es[..n]), es[n], cs[|es|]))
  }

  // Main result: over every run that is fed from the pool as Fed says, live
  // entries, recycled entries and unissued entries are disjoint and lie inside
  // their blocks.
  lemma {:induction false} ReachableCaches(bs: seq<Block>, cs: seq<Cache>, es: seq<Event>)
    requires Run(cs, es) && Inv(bs, cs[0], [])
    ensures Inv(bs, cs[|es|], LiveAfter(es))
  {
    if es != [] {
      var k := |es| - 1;
      ReachableCaches(bs, cs[..|es|], es[..k]);
      match es[k]
      case Got(a) => AllocKeeps(bs, cs[k], LiveAfter(es[..k]));
      case Gave(i) => FreeKeeps(bs, cs[k], LiveAfter(es[..k]), i);
    }
  }

  lemma {:induction false} CountTwo(l: seq<nat>, n: nat, i: nat, j: nat, x: nat)
    requires i < j < |l|
    ensures CountEntries(l, n, x) >= In(l[i], n, x) + In(l[j], n, x)
  {
    if i > 0 { CountTwo(l[1..], n, i - 1, j - 1, x); } else { CountDrop(l[1..], j - 1, n, x); }
  }

  // Two live entries share no byte, and a live entry is not waiting to be
  // issued again.
  lemma {:induction false} LiveDisjoint(bs: seq<Block>, c: Cache, live: seq<nat>, i: nat, j: nat)
    requires Inv(bs, c, live) && i < j < |live|
    ensures live[i] + c.item <= live[j] || live[j] + c.item <= live[i]
    ensures live[i] !in c.chunks
  {
    var x := if live[i] <= live[j] then live[j] else live[i];
    CountTwo(live, c.item, i, j, x);
    if live[i] in c.chunks {
      var k :| 0 <= k < |c.chunks| && c.chunks[k] == live[i];
      CountDrop(live, i, c.item, live[i]);
      CountDrop(c.chunks, k, c.item, live[i]);
    }
    assert Uses(c, live, x) <= 1 && Uses(c, live, live[i]) <= 1;
  }

  // Objects of the size that mm_cache_create was called with share no byte.
  lemma {:induction false} ObjectsDisjoint(bs: seq<Block>, c: Cache, live: seq<nat>, size: nat, i: nat, j: nat)
    requires Inv(bs, c, live) && c.item == Even(size) && i < j < |live|
    ensures live[i] + size <= live[j] || live[j] + size <= live[i]
    ensures InsideSome(bs, live[i], size)
  {
    LiveDisjoint(bs, c, live, i, j);
    var b :| b in bs && EntryInside(b, live[i], c.item);
    assert EntryInside(b, live[i], size);
  }

  // ----- All caches of the kernel

  // __free_list and the blocks of the page allocator serve all caches.
  datatype System = System(parts: seq<Part>, pool: seq<Block>, blocks: seq<nat>)

  function CacheOf(s: System, j: nat): Cache
    requires j < |s.parts|
  {
    var p := s.parts[j];
    Cache(p.item, p.source, p.chunks, s.pool, s.blocks)
  }

  function WithCache(s: System, j: nat, c: Cache, live: seq<nat>): System
    requires j < |s.parts|
  {
    System(s.parts[j := PartOf(c, live)], c.pool, c.blocks)
  }

  function PartsUses(ps: seq<Part>, x: nat): nat {
    if ps == [] then 0 else OwnUses(ps[0], x) + PartsUses(ps[1..], x)
  }

  lemma {:induction false} PartsUpdate(ps: seq<Part>, j: nat, p: Part, x: nat)
    requires j < |ps|
    ensures PartsUses(ps[j := p], x) + OwnUses(ps[j], x) == PartsUses(ps, x) + OwnUses(p, x)
  {
    if j > 0 {
      PartsUpdate(ps[1..], j - 1, p, x);
      assert ps[j := p][1..] == ps[1..][j - 1 := p];
    } else {
      assert ps[0 := p][1..] == ps[1..];
    }
  }

  lemma {:induction false} PartsAtLeast(ps: seq<Part>, j: nat, x: nat)
    requires j < |ps|
    ensures PartsUses(ps, x) >= OwnUses(ps[j], x)
  {
    if j > 0 { PartsAtLeast(ps[1..], j - 1, x); }
  }

  lemma {:induction false} PartsAtLeastTwo(ps: seq<Part>, i: nat, j: nat, x: nat)
    requires i < j < |ps|
    ensures PartsUses(ps, x) >= OwnUses(ps[i], x) + OwnUses(ps[j], x)
  {
    if i > 0 { PartsAtLeastTwo(ps[1..], i - 1, j - 1, x); } else { PartsAtLeast(ps[1..], j - 1, x); }
  }

  ghost predicate SystemInv(bs: seq<Block>, s: System) {
    && (forall j :: 0 <= j < |s.parts| ==> Inside(bs, CacheOf(s, j), s.parts[j].live))
    && forall x: nat :: PartsUses(s.parts, x) + PoolUses(s.pool, s.blocks, x) <= 1
  }

  // One call on cache j.
  ghost predicate SystemStep(s: System, j: nat, e: Event, t: System) {
    j < |s.parts| && CacheOf(s, j).item > 0 &&
    match e
    case Got(a) =>
      var c := CacheOf(s, j);
      Fed(c) && Alloc(c).Some? && Alloc(c).value.1 == a && t == WithCache(s, j, Alloc(c).value.0, s.parts[j].live + [a])
    case Gave(i) =>
      var live := s.parts[j].live;
      i < |live| && t == WithCache(s, j, Free(CacheOf(s, j), live[i]), Drop(live, i))
  }

  // A change of one cache that adds no use keeps the invariant.
  lemma {:induction false} WithKeeps(bs: seq<Block>, s: System, j: nat, c: Cache, live: seq<nat>)
    requires SystemInv(bs, s) && j < |s.parts| && Inside(bs, c, live)
    requires (forall b :: b in c.pool ==> b in s.pool) && (forall b :: b in c.blocks ==> b in s.blocks)
    requires forall x: nat :: Uses(c, live, x) <= Uses(CacheOf(s, j), s.parts[j].live, x)
    ensures SystemInv(bs, WithCache(s, j, c, live))
  {
    var t := WithCache(s, j, c, live);
    forall k | 0 <= k < |t.parts| ensures Inside(bs, CacheOf(t, k), t.parts[k].live) {
      if k != j { assert Inside(bs, CacheOf(s, k), s.parts[k].live); }
    }
    forall x: nat ensures PartsUses(t.parts, x) + PoolUses(t.pool, t.blocks, x) <= 1 {
      PartsUpdate(s.parts, j, PartOf(c, live), x);
      assert Uses(c, live, x) <= Uses(CacheOf(s, j), s.parts[j].live, x);
      assert PartOf(CacheOf(s, j), s.parts[j].live) == s.parts[j];
    }
  }

  lemma {:induction false} StepShrinks(c: Cache)
    requires c.item > 0 && Alloc(c).Some?
    ensures var d := Alloc(c).value.0;
      (forall b :: b in d.pool ==> b in c.pool) && (forall b :: b in d.blocks ==> b in c.blocks)
  {
  }

  lemma {:induction false} SystemKeeps(bs: seq<Block>, s: System, j: nat, e: Event, t: System)
    requires SystemInv(bs, s) && SystemStep(s, j, e, t)
    ensures SystemInv(bs, t)
  {
    var c, live := CacheOf(s, j), s.parts[j].live;
    match e
    case Got(a) =>
      AllocUses(bs, c, live);
      StepShrinks(c);
      WithKeeps(bs, s, j, Alloc(c).value.0, live + [a]);
    case Gave(i) =>
      FreeUses(bs, c, live, i);
      WithKeeps(bs, s, j, Free(c, live[i]), Drop(live, i));
  }

  // js[k] and es[k] lead from ss[k] to ss[k + 1].
  ghost predicate SystemRun(ss: seq<System>, js: seq<nat>, es: seq<Event>) {
    && |ss| == |es| + 1 && |js| == |es|
    && forall k, l :: 0 <= k && l == k + 1 < |ss| ==> SystemStep(ss[k], js[k], es[k], ss[l])
  }

  // Main result: over every run of calls on any number of caches that draw from
  // one pool, the invariant holds.
  lemma {:induction false} ReachableSystems(bs: seq<Block>, ss: seq<System>, js: seq<nat>, es: seq<Event>, k: nat)
    requires SystemRun(ss, js, es) && SystemInv(bs, ss[0]) && k < |ss|
    ensures SystemInv(bs, ss[k])
  {
    if k > 0 {
      ReachableSystems(bs, ss, js, es, k - 1);
      SystemKeeps(bs, ss[k - 1], js[k - 1], es[k - 1], ss[k]);
    }
  }

  // Live entries of two caches share no byte.
  lemma {:induction false} CachesDisjoint(bs: seq<Block>, s: System, i: nat, j: nat, a: nat, b: nat)
    requires SystemInv(bs, s) && i < j < |s.parts| && a in s.parts[i].live && b in s.parts[j].live
    ensures a + s.parts[i].item <= b || b + s.parts[j].item <= a
  {
    var x := if a <= b then b else a;
    PartsAtLeastTwo(s.parts, i, j, x);
    assert Inside(bs, CacheOf(s, i), s.parts[i].live) && Inside(bs, CacheOf(s, j), s.parts[j].live);
    LiveUses(s.parts[i], a, x);
    LiveUses(s.parts[j], b, x);
    assert PartsUses(s.parts, x) + PoolUses(s.pool, s.blocks, x) <= 1;
  }

  // Nor do the objects of two caches.
  lemma {:induction false} AllObjectsDisjoint(bs: seq<Block>, s: System, i: nat, j: nat, size: nat, other: nat, a: nat, b: nat)
    requires SystemInv(bs, s) && i < j < |s.parts| && a in s.parts[i].live && b in s.parts[j].live
    requires s.parts[i].item == Even(size) && s.parts[j].item == Even(other)
    ensures a + size <= b || b + other <= a
  {
    CachesDisjoint(bs, s, i, j, a, b);
  }

  lemma {:induction false} LiveUses(p: Part, a: nat, x: nat)
    requires a in p.live
    ensures OwnUses(p, x) >= In(a, p.item, x)
  {
    var i :| 0 <= i < |p.live| && p.live[i] == a;
    CountDrop(p.live, i, p.item, x);
  }

  // ----- The cache itself

  // cfe_t
  class Cfe {
    const mem: nat
    const len: nat
    var next: nat
    var num: nat

    constructor (mem: nat, len: nat)
      ensures this.mem == mem && this.len == len && next == mem && num == PAGE_SIZE
    {
      this.mem, this.len, this.next, this.num := mem, len, mem, PAGE_SIZE;
    }
  }

  class SlabCache {
    const itemSize: nat
    var capacity: nat
    var freeList: Cfe?
    var chunks: seq<nat>
    // __free_list, which all caches share, and what mm_block_alloc hands out.
    var pool: seq<Cfe>
    var blocks: seq<nat>

    ghost predicate Valid()
      reads this, pool
    {
      && 0 < itemSize <= PAGE_SIZE
      && (forall i :: 0 <= i < |pool| ==> pool[i].next == pool[i].mem && pool[i] != freeList)
      && (forall i, j :: 0 <= i < j < |pool| ==> pool[i] != pool[j])
    }

    ghost function Pool(ps: seq<Cfe>): (bs: seq<Block>)
      ensures |bs| == |ps| && forall i :: 0 <= i < |ps| ==> bs[i] == Block(ps[i].mem, ps[i].len)
    {
      seq(|ps|, i requires 0 <= i < |ps| => Block(ps[i].mem, ps[i].len))
    }

    ghost function View(): Cache
      reads this, freeList
    {
      Cache(itemSize,
            if freeList == null then None
            else Some(Source(Block(freeList.mem, freeList.len), freeList.next, freeList.num)),
            chunks, Pool(pool), blocks)
    }

    // mm_cache_create: draws the first page at once.
    constructor (size: nat, pool: seq<Cfe>, blocks: seq<nat>)
      requires 0 < size <= PAGE_SIZE && (pool != [] || blocks != [])
      requires forall i :: 0 <= i < |pool| ==> pool[i].next == pool[i].mem
      requires forall i, j :: 0 <= i < j < |pool| ==> pool[i] != pool[j]
      modifies pool
      ensures Valid() && itemSize == Even(size) && capacity == PAGE_SIZE / itemSize
      ensures itemSize % 2 == 0 && size <= itemSize <= size + 1
      ensures Draw(Cache(itemSize, None, [], Pool(pool), blocks)) == Some(View())
    {
      itemSize := Even(size);
      capacity := PAGE_SIZE / Even(size);
      freeList, chunks := null, [];
      this.pool, this.blocks := pool, blocks;
      new;
      freeList := AllocCfe();
    }

    // __alloc_cfe: NULL where the kernel panics.
    method AllocCfe() returns (e: Cfe?)
      requires Valid() && freeList == null
      modifies this`pool, this`blocks, pool
      ensures Valid() && (e != null ==> e !in pool && (e in old(pool) || fresh(e)))
      ensures match Draw(old(View()))
        case None => e == null && View() == old(View())
        case Some(d) => e != null && View() == d.(source := None) && d.source == Some(Source(Block(e.mem, e.len), e.next, e.num))
    {
      if pool != [] {
        e := pool[0];
        pool := pool[1..];
        e.num := (PAGE_SIZE / itemSize + SIZE_T - 1) % SIZE_T;
        return;
      }
      if blocks == [] { return null; }
      e := new Cfe(blocks[0], FRESH_BLOCK);
      blocks := blocks[1..];
    }

    // The second half of mm_cache_alloc_entry.
    method Issue() returns (a: nat)
      requires Valid() && freeList != null
      modifies this`freeList, freeList
      ensures Valid() && Bump(old(View())) == (View(), a)
    {
      a := freeList.next;
      freeList.num := (freeList.num + SIZE_T - 1) % SIZE_T;
      if freeList.num == 0 {
        freeList := null;
      } else {
        freeList.next := freeList.next + itemSize;
      }
    }

    // mm_cache_alloc_entry: None where the kernel panics.
    method AllocEntry() returns (r: Option<nat>)
      requires Valid()
      modifies this, freeList, pool
      ensures Valid()
      ensures capacity == old(capacity) +
        if old(chunks) == [] && old(freeList) == null && r.Some? then PAGE_SIZE / itemSize else 0
      ensures match Alloc(old(View()))
        case None => r == None && View() == old(View())
        case Some((d, a)) => r == Some(a) && View() == d
    {
      if chunks != [] {
        r := Some(chunks[0]);
        chunks := chunks[1..];
        return;
      }
      if freeList == null {
        var e := AllocCfe();
        if e == null { return None; }
        freeList := e;
        capacity := capacity + PAGE_SIZE / itemSize;
      }
      var a := Issue();
      r := Some(a);
    }

    // mm_cache_free_entry
    method FreeEntry(entry: nat)
      requires Valid()
      modifies this`chunks
      ensures Valid() && View() == Free(old(View()), entry)
    {
      chunks := if chunks == [] then [entry] else [chunks[0], entry] + chunks[1..];
    }
  }
}
