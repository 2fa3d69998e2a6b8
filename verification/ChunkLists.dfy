// The kernel heap of src/mm/heap.c seen as values: every arena is the sequence
// of the chunks that its header list links, in address order.
module ChunkLists {
  const HEADER: nat := 25            // sizeof(mm_chunk_t), packed
  const SPLIT_THRESHOLD: nat := 8
  const ARENA_SIZE: nat := 16384     // PAGE_SIZE * (1 << HEAP_ARENA_SIZE)
  const WHOLE: Chunk := Chunk(ARENA_SIZE - HEADER, true)

  datatype Chunk = Chunk(size: nat, free: bool)
  datatype Extent = Extent(at: nat, size: nat)
  datatype Arena = Arena(base: nat, chunks: seq<Chunk>)

  // Distance from the arena's base to the header of chunk i.
  function Offset(cs: seq<Chunk>, i: nat): nat
    requires i <= |cs|
  {
    if i == 0 then 0 else Offset(cs, i - 1) + HEADER + cs[i - 1].size
  }

  function HeaderAt(r: Arena, i: nat): nat
    requires i <= |r.chunks|
  {
    r.base + Offset(r.chunks, i)
  }

  function PayloadAt(r: Arena, i: nat): nat
    requires i < |r.chunks|
  {
    HeaderAt(r, i) + HEADER
  }

  predicate Tiles(cs: seq<Chunk>) {
    cs != [] && Offset(cs, |cs|) == ARENA_SIZE
  }

  ghost predicate NoFreeNeighbours(cs: seq<Chunk>) {
    forall i, j :: 0 <= i < j < |cs| && j == i + 1 ==> !(cs[i].free && cs[j].free)
  }

  // Arenas at these two addresses do not overlap.
  predicate Separate(b: nat, c: nat) {
    b + ARENA_SIZE <= c || c + ARENA_SIZE <= b
  }

  ghost predicate ValidHeap(h: seq<Arena>) {
    && (forall a :: 0 <= a < |h| ==> Tiles(h[a].chunks) && NoFreeNeighbours(h[a].chunks))
    && (forall a, b :: 0 <= a < b < |h| ==> Separate(h[a].base, h[b].base))
  }

  lemma {:induction false} Apart(h: seq<Arena>, a: nat, b: nat)
    requires ValidHeap(h) && a < |h| && b < |h| && a != b
    ensures Separate(h[a].base, h[b].base)
  {
    assert if a < b then Separate(h[a].base, h[b].base) else Separate(h[b].base, h[a].base);
  }

  // ----- Offsets

  lemma {:induction false} OffsetPrefix(xs: seq<Chunk>, ys: seq<Chunk>, i: nat)
    requires i <= |xs|
    ensures Offset(xs + ys, i) == Offset(xs, i)
  {
    if i > 0 { OffsetPrefix(xs, ys, i - 1); }
  }

  lemma {:induction false} OffsetSuffix(xs: seq<Chunk>, ys: seq<Chunk>, i: nat)
    requires i <= |ys|
    ensures Offset(xs + ys, |xs| + i) == Offset(xs, |xs|) + Offset(ys, i)
  {
    if i == 0 {
      OffsetPrefix(xs, ys, |xs|);
    } else {
      OffsetSuffix(xs, ys, i - 1);
    }
  }

  lemma {:induction false} OffsetOrder(cs: seq<Chunk>, i: nat, j: nat)
    requires i < j <= |cs|
    ensures Offset(cs, i) + HEADER + cs[i].size <= Offset(cs, j)
  {
    if i < j - 1 { OffsetOrder(cs, i, j - 1); }
  }

  // cs with the n chunks from i on replaced by rs.
  function Splice(cs: seq<Chunk>, i: nat, n: nat, rs: seq<Chunk>): seq<Chunk>
    requires i + n <= |cs|
  {
    cs[..i] + rs + cs[i + n..]
  }

  // Replacing chunks by others that cover the same bytes moves no other header.
  lemma {:induction false} SpliceOffsets(cs: seq<Chunk>, i: nat, n: nat, rs: seq<Chunk>)
    requires i + n <= |cs|
    requires Offset(rs, |rs|) == Offset(cs[i..i + n], n)
    ensures var ds := Splice(cs, i, n, rs);
      && (forall j :: 0 <= j <= i ==> Offset(ds, j) == Offset(cs, j))
      && (forall j :: i + n <= j <= |cs| ==> Offset(ds, j - n + |rs|) == Offset(cs, j))
  {
    var ds := Splice(cs, i, n, rs);
    forall j | 0 <= j <= i ensures Offset(ds, j) == Offset(cs, j) { SpliceBefore(cs, i, n, rs, j); }
    forall j | i + n <= j <= |cs| ensures Offset(ds, j - n + |rs|) == Offset(cs, j) { SpliceBehind(cs, i, n, rs, j); }
  }

  lemma {:induction false} SpliceParts(cs: seq<Chunk>, i: nat, n: nat, rs: seq<Chunk>)
    requires i + n <= |cs|
    ensures cs == cs[..i] + (cs[i..i + n] + cs[i + n..])
    ensures Splice(cs, i, n, rs) == cs[..i] + (rs + cs[i + n..])
  {
  }

  lemma {:induction false} SpliceBefore(cs: seq<Chunk>, i: nat, n: nat, rs: seq<Chunk>, j: nat)
    requires i + n <= |cs| && j <= i
    ensures Offset(Splice(cs, i, n, rs), j) == Offset(cs, j)
  {
    var xs, os, ys := cs[..i], cs[i..i + n], cs[i + n..];
    SpliceParts(cs, i, n, rs);
    OffsetPrefix(xs, os + ys, j);
    OffsetPrefix(xs, rs + ys, j);
  }

  lemma {:induction false} SpliceBehind(cs: seq<Chunk>, i: nat, n: nat, rs: seq<Chunk>, j: nat)
    requires i + n <= j <= |cs|
    requires Offset(rs, |rs|) == Offset(cs[i..i + n], n)
    ensures Offset(Splice(cs, i, n, rs), j - n + |rs|) == Offset(cs, j)
  {
    var xs, os, ys := cs[..i], cs[i..i + n], cs[i + n..];
    SpliceParts(cs, i, n, rs);
    OffsetBehind(xs, os, rs, ys, j - i - n);
  }

  lemma {:induction false} OffsetBehind(xs: seq<Chunk>, os: seq<Chunk>, rs: seq<Chunk>, ys: seq<Chunk>, k: nat)
    requires Offset(os, |os|) == Offset(rs, |rs|) && k <= |ys|
    ensures Offset(xs + (os + ys), |xs| + |os| + k) == Offset(xs + (rs + ys), |xs| + |rs| + k)
  {
    OffsetSuffix(os, ys, k);
    OffsetSuffix(rs, ys, k);
    OffsetSuffix(xs, os + ys, |os| + k);
    OffsetSuffix(xs, rs + ys, |rs| + k);
  }

  // ----- kmalloc

  predicate Serves(c: Chunk, n: nat) {
    c.free && c.size >= n
  }

  // First chunk from i on that serves n, |cs| when there is none.
  function FirstFit(cs: seq<Chunk>, n: nat, i: nat): (k: nat)
    requires i <= |cs|
    ensures i <= k <= |cs|
    ensures k < |cs| ==> Serves(cs[k], n)
    ensures forall j :: i <= j < k ==> !Serves(cs[j], n)
    decreases |cs| - i
  {
    if i == |cs| || Serves(cs[i], n) then i else FirstFit(cs, n, i + 1)
  }

  // First arena from a on that has such a chunk, |h| when there is none.
  function FirstArena(h: seq<Arena>, n: nat, a: nat): (k: nat)
    requires a <= |h|
    ensures a <= k <= |h|
    ensures k < |h| ==> FirstFit(h[k].chunks, n, 0) < |h[k].chunks|
    ensures forall b :: a <= b < k ==> FirstFit(h[b].chunks, n, 0) == |h[b].chunks|
    decreases |h| - a
  {
    if a == |h| || FirstFit(h[a].chunks, n, 0) < |h[a].chunks| then a else FirstArena(h, n, a + 1)
  }

  // What replaces a chunk of the given size when n bytes of it are handed out.
  function Cut(size: nat, n: nat): seq<Chunk>
    requires n <= size
  {
    if size - n < HEADER + SPLIT_THRESHOLD then [Chunk(size, false)]
    else [Chunk(n, false), Chunk(size - n - HEADER, true)]
  }

  function Take(cs: seq<Chunk>, i: nat, n: nat): seq<Chunk>
    requires i < |cs| && n <= cs[i].size
  {
    Splice(cs, i, 1, Cut(cs[i].size, n))
  }

  function Grown(h: seq<Arena>, base: nat): seq<Arena> {
    h + [Arena(base, [WHOLE])]
  }

  function TakeFrom(h: seq<Arena>, n: nat): (seq<Arena>, nat)
    requires FirstArena(h, n, 0) < |h|
  {
    var a := FirstArena(h, n, 0);
    var i := FirstFit(h[a].chunks, n, 0);
    (h[a := h[a].(chunks := Take(h[a].chunks, i, n))], PayloadAt(h[a], i))
  }

  // The heap in which kmalloc finds its chunk: one with a fresh arena when no
  // arena serves n.
  function Ready(h: seq<Arena>, n: nat, base: nat): seq<Arena> {
    if FirstArena(h, n, 0) < |h| then h else Grown(h, base)
  }

  // ----- kfree

  function Join(cs: seq<Chunk>, i: nat): seq<Chunk>
    requires i + 1 < |cs|
  {
    Splice(cs, i, 2, [Chunk(cs[i].size + cs[i + 1].size + HEADER, cs[i].free)])
  }

  function MergePrev(cs: seq<Chunk>, i: nat): (r: (seq<Chunk>, nat))
    requires i < |cs|
    ensures r.1 < |r.0|
    decreases i
  {
    if i == 0 || !cs[i - 1].free then (cs, i) else MergePrev(Join(cs, i - 1), i - 1)
  }

  function MergeNext(cs: seq<Chunk>, i: nat): seq<Chunk>
    requires i < |cs|
    decreases |cs|
  {
    if i + 1 == |cs| || !cs[i + 1].free then cs else MergeNext(Join(cs, i), i)
  }

  function Release(cs: seq<Chunk>, i: nat): seq<Chunk>
    requires i < |cs|
  {
    var (ds, k) := MergePrev(cs[i := cs[i].(free := true)], i);
    MergeNext(ds, k)
  }

  function ReleaseIn(h: seq<Arena>, a: nat, i: nat): seq<Arena>
    requires a < |h| && i < |h[a].chunks|
  {
    h[a := h[a].(chunks := Release(h[a].chunks, i))]
  }

  // With no two free neighbours around, releasing chunk i joins it with the
  // free chunk before it and the free chunk after it, and with nothing more.
  lemma {:induction false} ReleaseShape(cs: seq<Chunk>, i: nat) returns (lo: nat, hi: nat, c: Chunk)
    requires i < |cs| && NoFreeNeighbours(cs) && !cs[i].free
    ensures lo == (if i > 0 && cs[i - 1].free then i - 1 else i)
    ensures hi == (if i + 1 < |cs| && cs[i + 1].free then i + 2 else i + 1)
    ensures Release(cs, i) == cs[..lo] + [c] + cs[hi..]
    ensures c.free && HEADER + c.size == Offset(cs[lo..hi], hi - lo)
  {
    lo := if i > 0 && cs[i - 1].free then i - 1 else i;
    hi := if i + 1 < |cs| && cs[i + 1].free then i + 2 else i + 1;
    var before := if lo < i then HEADER + cs[lo].size else 0;
    var after := if hi > i + 1 then HEADER + cs[i + 1].size else 0;
    var one := Chunk(before + cs[i].size, true);
    c := Chunk(one.size + after, true);
    MergePrevShape(cs, i, lo, one);
    if hi < |cs| && i + 1 < hi { NotBothFree(cs, i + 1); }
    MergeNextShape(cs[..lo], one, cs[i + 1..]);
    assert cs[i + 1..][hi - i - 1..] == cs[hi..];
    SpanOf3(cs[lo..hi]);
  }

  // Chunk c joins with the first of ys when that is free, but with no more.
  lemma {:induction false} MergeNextShape(xs: seq<Chunk>, c: Chunk, ys: seq<Chunk>)
    requires |ys| > 1 && ys[0].free ==> !ys[1].free
    ensures MergeNext(xs + [c] + ys, |xs|) ==
      if ys != [] && ys[0].free then xs + [Chunk(c.size + ys[0].size + HEADER, c.free)] + ys[1..] else xs + [c] + ys
  {
    var cs, k := xs + [c] + ys, |xs|;
    assert ys != [] ==> cs[k + 1] == ys[0];
    if ys != [] && ys[0].free {
      assert |ys| > 1 ==> cs[k + 2] == ys[1];
      MergeNextOnce(cs, k);
      JoinParts(xs, c, ys);
    }
  }

  lemma {:induction false} JoinParts(xs: seq<Chunk>, c: Chunk, ys: seq<Chunk>)
    requires ys != []
    ensures Join(xs + [c] + ys, |xs|) == xs + [Chunk(c.size + ys[0].size + HEADER, c.free)] + ys[1..]
  {
  }

  lemma {:induction false} NotBothFree(cs: seq<Chunk>, i: nat)
    requires NoFreeNeighbours(cs) && i + 1 < |cs|
    ensures !(cs[i].free && cs[i + 1].free)
  {
  }

  lemma {:induction false} MergePrevShape(cs: seq<Chunk>, i: nat, lo: nat, c: Chunk)
    requires i < |cs| && NoFreeNeighbours(cs)
    requires lo == if i > 0 && cs[i - 1].free then i - 1 else i
    requires c == Chunk((if lo < i then HEADER + cs[lo].size else 0) + cs[i].size, true)
    ensures MergePrev(cs[i := cs[i].(free := true)], i) == (cs[..lo] + [c] + cs[i + 1..], lo)
  {
    var cs1 := cs[i := cs[i].(free := true)];
    if lo < i {
      var ds := Join(cs1, lo);
      assert ds == cs[..lo] + [c] + cs[i + 1..];
      assert lo > 0 ==> !cs[lo - 1].free && ds[lo - 1] == cs[lo - 1];
      assert MergePrev(ds, lo) == (ds, lo);
    } else {
      assert cs1 == cs[..i] + [c] + cs[i + 1..];
    }
  }

  lemma {:induction false} MergeNextOnce(cs: seq<Chunk>, i: nat)
    requires i + 1 < |cs| && cs[i + 1].free && (i + 2 < |cs| ==> !cs[i + 2].free)
    ensures MergeNext(cs, i) == Join(cs, i)
  {
    var ds := Join(cs, i);
    assert i + 2 < |cs| ==> ds[i + 1] == cs[i + 2];
    assert MergeNext(ds, i) == ds;
  }

  lemma {:induction false} NoFreeParts(xs: seq<Chunk>, ys: seq<Chunk>)
    requires NoFreeNeighbours(xs + ys)
    ensures NoFreeNeighbours(xs) && NoFreeNeighbours(ys)
    ensures xs != [] && ys != [] ==> !(xs[|xs| - 1].free && ys[0].free)
  {
    var cs := xs + ys;
    forall i, j | 0 <= i < j < |xs| && j == i + 1 ensures !(xs[i].free && xs[j].free) {
      assert cs[i] == xs[i] && cs[j] == xs[j];
    }
    forall i, j | 0 <= i < j < |ys| && j == i + 1 ensures !(ys[i].free && ys[j].free) {
      assert cs[|xs| + i] == ys[i] && cs[|xs| + j] == ys[j];
    }
    assert xs != [] && ys != [] ==> cs[|xs| - 1] == xs[|xs| - 1] && cs[|xs|] == ys[0];
  }

  lemma {:induction false} NoFreeJoined(xs: seq<Chunk>, ys: seq<Chunk>)
    requires NoFreeNeighbours(xs) && NoFreeNeighbours(ys)
    requires xs != [] && ys != [] ==> !(xs[|xs| - 1].free && ys[0].free)
    ensures NoFreeNeighbours(xs + ys)
  {
  }

  lemma {:induction false} SpanOf3(mid: seq<Chunk>)
    requires 1 <= |mid| <= 3
    ensures Offset(mid, |mid|) == |mid| * HEADER + mid[0].size
              + (if |mid| > 1 then mid[1].size else 0) + (if |mid| > 2 then mid[2].size else 0)
  {
    assert Offset(mid, 1) == HEADER + mid[0].size;
    assert |mid| > 1 ==> Offset(mid, 2) == Offset(mid, 1) + HEADER + mid[1].size;
  }

  // ----- Live allocations

  // Address and size of the payloads that chunks laid out from address at on
  // have handed out.
  ghost function LiveFrom(cs: seq<Chunk>, at: nat): set<Extent> {
    if cs == [] then {} else
      var k := |cs| - 1;
      LiveFrom(cs[..k], at) + (if cs[k].free then {} else {Extent(at + Offset(cs, k) + HEADER, cs[k].size)})
  }

  ghost function LiveIn(r: Arena): set<Extent> {
    LiveFrom(r.chunks, r.base)
  }

  // Address and size of every payload that is handed out.
  ghost function Live(h: seq<Arena>): set<Extent> {
    set a, x | 0 <= a < |h| && x in LiveIn(h[a]) :: x
  }

  lemma {:induction false} LiveAppend(xs: seq<Chunk>, ys: seq<Chunk>, at: nat)
    ensures LiveFrom(xs + ys, at) == LiveFrom(xs, at) + LiveFrom(ys, at + Offset(xs, |xs|))
  {
    if ys == [] {
      assert xs + ys == xs;
    } else {
      var k := |ys| - 1;
      LiveAppend(xs, ys[..k], at);
      assert (xs + ys)[..|xs| + k] == xs + ys[..k];
      OffsetSuffix(xs, ys, k);
    }
  }

  lemma {:induction false} LiveFromBounds(cs: seq<Chunk>, at: nat, x: Extent)
    requires x in LiveFrom(cs, at)
    ensures at + HEADER <= x.at && x.at + x.size <= at + Offset(cs, |cs|)
    ensures exists i :: 0 <= i < |cs| && !cs[i].free && x == Extent(at + Offset(cs, i) + HEADER, cs[i].size)
  {
    var k := |cs| - 1;
    OffsetPrefix(cs[..k], cs[k..], k);
    assert cs[..k] + cs[k..] == cs;
    if x in LiveFrom(cs[..k], at) {
      LiveFromBounds(cs[..k], at, x);
      var i :| 0 <= i < k && !cs[..k][i].free && x == Extent(at + Offset(cs[..k], i) + HEADER, cs[i].size);
      OffsetPrefix(cs[..k], cs[k..], i);
      assert !cs[i].free;
    } else {
      assert !cs[k].free;
    }
  }

  lemma {:induction false} LiveMember(cs: seq<Chunk>, at: nat, i: nat)
    requires i < |cs| && !cs[i].free
    ensures Extent(at + Offset(cs, i) + HEADER, cs[i].size) in LiveFrom(cs, at)
  {
    var k := |cs| - 1;
    if i < k {
      LiveMember(cs[..k], at, i);
      OffsetPrefix(cs[..k], cs[k..], i);
      assert cs[..k] + cs[k..] == cs;
    }
  }

  lemma {:induction false} LiveBounds(r: Arena, x: Extent)
    requires Tiles(r.chunks) && x in LiveIn(r)
    ensures r.base + HEADER <= x.at && x.at + x.size <= r.base + ARENA_SIZE
  {
    LiveFromBounds(r.chunks, r.base, x);
  }

  lemma {:induction false} LiveInDisjoint(cs: seq<Chunk>, at: nat, x: Extent, y: Extent)
    requires x in LiveFrom(cs, at) && y in LiveFrom(cs, at) && x != y
    ensures x.at + x.size + HEADER <= y.at || y.at + y.size + HEADER <= x.at
  {
    LiveFromBounds(cs, at, x);
    LiveFromBounds(cs, at, y);
    var i :| 0 <= i < |cs| && !cs[i].free && x == Extent(at + Offset(cs, i) + HEADER, cs[i].size);
    var j :| 0 <= j < |cs| && !cs[j].free && y == Extent(at + Offset(cs, j) + HEADER, cs[j].size);
    if i < j { OffsetOrder(cs, i, j); } else { OffsetOrder(cs, j, i); }
  }

  // Two different live payloads have a header between them, or lie in
  // different arenas: they share no byte.
  lemma {:induction false} LiveDisjoint(h: seq<Arena>, x: Extent, y: Extent)
    requires ValidHeap(h) && x in Live(h) && y in Live(h) && x != y
    ensures x.at + x.size + HEADER <= y.at || y.at + y.size + HEADER <= x.at
  {
    var a :| 0 <= a < |h| && x in LiveIn(h[a]);
    var b :| 0 <= b < |h| && y in LiveIn(h[b]);
    if a == b {
      LiveInDisjoint(h[a].chunks, h[a].base, x, y);
    } else {
      LiveBounds(h[a], x);
      LiveBounds(h[b], y);
    }
  }

  lemma {:induction false} LiveSplit(xs: seq<Chunk>, mid: seq<Chunk>, ys: seq<Chunk>, at: nat)
    ensures LiveFrom(xs + mid + ys, at) == LiveFrom(xs, at) + LiveFrom(mid, at + Offset(xs, |xs|))
              + LiveFrom(ys, at + Offset(xs, |xs|) + Offset(mid, |mid|))
    ensures Offset(xs + mid + ys, |xs| + |mid| + |ys|)
              == Offset(xs, |xs|) + Offset(mid, |mid|) + Offset(ys, |ys|)
  {
    LiveAppend(xs, mid, at);
    LiveAppend(xs + mid, ys, at);
    OffsetSuffix(xs, mid, |mid|);
    OffsetSuffix(xs + mid, ys, |ys|);
  }

  lemma {:induction false} LiveOne(c: Chunk, at: nat)
    ensures LiveFrom([c], at) == if c.free then {} else {Extent(at + HEADER, c.size)}
    ensures Offset([c], 1) == HEADER + c.size
  {
    assert [c][..0] == [];
  }

  lemma {:induction false} CutLive(size: nat, n: nat, at: nat)
    requires n <= size
    ensures var rs := Cut(size, n);
      && LiveFrom(rs, at) == {Extent(at + HEADER, rs[0].size)}
      && Offset(rs, |rs|) == HEADER + size
      && n <= rs[0].size < n + HEADER + SPLIT_THRESHOLD
  {
    var rs := Cut(size, n);
    LiveOne(rs[0], at);
    if |rs| == 2 {
      LiveAppend([rs[0]], [rs[1]], at);
      LiveOne(rs[1], at + HEADER + rs[0].size);
      OffsetSuffix([rs[0]], [rs[1]], 1);
      assert rs == [rs[0]] + [rs[1]];
    } else {
      assert rs == [rs[0]];
    }
  }

  lemma {:induction false} TakeNoFree(cs: seq<Chunk>, i: nat, n: nat)
    requires NoFreeNeighbours(cs) && i < |cs| && Serves(cs[i], n)
    ensures NoFreeNeighbours(Take(cs, i, n))
  {
    var xs, rs, ys := cs[..i], Cut(cs[i].size, n), cs[i + 1..];
    assert cs == xs + [cs[i]] + ys;
    NoFreeParts(xs + [cs[i]], ys);
    NoFreeParts(xs, [cs[i]]);
    NoFreeJoined(xs, rs);
    NoFreeJoined(xs + rs, ys);
  }

  lemma {:induction false} ReleaseNoFree(cs: seq<Chunk>, i: nat)
    requires NoFreeNeighbours(cs) && i < |cs| && !cs[i].free
    ensures NoFreeNeighbours(Release(cs, i))
  {
    var lo, hi, c := ReleaseShape(cs, i);
    var xs, ys := cs[..lo], cs[hi..];
    if 0 < lo < i { NotBothFree(cs, lo - 1); }
    if i + 1 < hi < |cs| { NotBothFree(cs, i + 1); }
    NoFreeSlices(cs, lo, hi);
    NoFreeJoined(xs, [c]);
    NoFreeJoined(xs + [c], ys);
  }

  lemma {:induction false} NoFreeSlices(cs: seq<Chunk>, lo: nat, hi: nat)
    requires NoFreeNeighbours(cs) && lo <= hi <= |cs|
    ensures NoFreeNeighbours(cs[..lo]) && NoFreeNeighbours(cs[hi..])
    ensures lo > 0 ==> cs[..lo][lo - 1] == cs[lo - 1]
    ensures hi < |cs| ==> cs[hi..][0] == cs[hi]
  {
    assert cs == cs[..lo] + cs[lo..] && cs == cs[..hi] + cs[hi..];
    NoFreeParts(cs[..lo], cs[lo..]);
    NoFreeParts(cs[..hi], cs[hi..]);
  }

  // Replacing the middle part mid by one that covers the same bytes changes
  // the live payloads only by those of the middle part.
  lemma {:induction false} Replaced(xs: seq<Chunk>, mid: seq<Chunk>, rs: seq<Chunk>, ys: seq<Chunk>, at: nat)
    returns (rest: set<Extent>)
    requires Offset(mid, |mid|) == Offset(rs, |rs|)
    ensures Offset(xs + rs + ys, |xs + rs + ys|) == Offset(xs + mid + ys, |xs + mid + ys|)
    ensures LiveFrom(xs + mid + ys, at) == rest + LiveFrom(mid, at + Offset(xs, |xs|))
    ensures LiveFrom(xs + rs + ys, at) == rest + LiveFrom(rs, at + Offset(xs, |xs|))
    ensures forall x :: x in rest ==>
      x.at + x.size <= at + Offset(xs, |xs|) || at + Offset(xs, |xs|) + Offset(mid, |mid|) < x.at
  {
    var up := at + Offset(xs, |xs|) + Offset(mid, |mid|);
    rest := LiveFrom(xs, at) + LiveFrom(ys, up);
    LiveAround(xs, mid, ys, at, up, rest);
    LiveAround(xs, rs, ys, at, up, rest);
    Outside(xs, ys, at, up);
  }

  lemma {:induction false} LiveAround(xs: seq<Chunk>, mid: seq<Chunk>, ys: seq<Chunk>, at: nat, up: nat,
                                      rest: set<Extent>)
    requires up == at + Offset(xs, |xs|) + Offset(mid, |mid|) && rest == LiveFrom(xs, at) + LiveFrom(ys, up)
    ensures LiveFrom(xs + mid + ys, at) == rest + LiveFrom(mid, at + Offset(xs, |xs|))
    ensures Offset(xs + mid + ys, |xs + mid + ys|) == up - at + Offset(ys, |ys|)
  {
    LiveSplit(xs, mid, ys, at);
    MiddleLast(LiveFrom(xs, at), LiveFrom(mid, at + Offset(xs, |xs|)), LiveFrom(ys, up));
  }

  lemma {:induction false} MiddleLast(a: set<Extent>, b: set<Extent>, c: set<Extent>)
    ensures a + b + c == a + c + b
  {
  }

  lemma {:induction false} Outside(xs: seq<Chunk>, ys: seq<Chunk>, at: nat, up: nat)
    ensures forall x :: x in LiveFrom(xs, at) + LiveFrom(ys, up) ==> x.at + x.size <= at + Offset(xs, |xs|) || up < x.at
  {
    forall x | x in LiveFrom(xs, at) + LiveFrom(ys, up) ensures x.at + x.size <= at + Offset(xs, |xs|) || up < x.at {
      if x in LiveFrom(xs, at) { LiveFromBounds(xs, at, x); } else { LiveFromBounds(ys, up, x); }
    }
  }

  // Handing out n bytes of free chunk i keeps the tiling and adds one payload.
  lemma {:induction false} TakeKeeps(r: Arena, i: nat, n: nat)
    requires Tiles(r.chunks) && NoFreeNeighbours(r.chunks)
    requires i < |r.chunks| && Serves(r.chunks[i], n)
    ensures var q := r.(chunks := Take(r.chunks, i, n));
      && Tiles(q.chunks) && NoFreeNeighbours(q.chunks)
      && LiveIn(q) == LiveIn(r) + {Extent(PayloadAt(r, i), q.chunks[i].size)}
      && n <= q.chunks[i].size < n + HEADER + SPLIT_THRESHOLD
    ensures forall y :: y in LiveIn(r) ==> y.at != PayloadAt(r, i)
  {
    var cs := r.chunks;
    TakeNoFree(cs, i, n);
    Around(cs, i, i + 1);
    assert cs[i..i + 1] == [cs[i]];
    TakeParts(cs, Take(cs, i, n), cs[..i], cs[i], n, cs[i + 1..], r.base);
  }

  lemma {:induction false} TakeParts(cs: seq<Chunk>, ds: seq<Chunk>, xs: seq<Chunk>, c: Chunk, n: nat, ys: seq<Chunk>,
                                     at: nat)
    requires Serves(c, n) && cs == xs + [c] + ys && ds == xs + Cut(c.size, n) + ys
    ensures var p := at + Offset(xs, |xs|) + HEADER;
      && Offset(ds, |ds|) == Offset(cs, |cs|)
      && LiveFrom(ds, at) == LiveFrom(cs, at) + {Extent(p, ds[|xs|].size)}
      && n <= ds[|xs|].size < n + HEADER + SPLIT_THRESHOLD
      && forall y :: y in LiveFrom(cs, at) ==> y.at != p
  {
    var here := at + Offset(xs, |xs|);
    CutLive(c.size, n, here);
    LiveOne(c, here);
    var rest := Replaced(xs, [c], Cut(c.size, n), ys, at);
    assert ds[|xs|] == Cut(c.size, n)[0];
  }

  // Releasing used chunk i keeps the tiling and removes that payload alone.
  lemma {:induction false} ReleaseKeeps(r: Arena, i: nat)
    requires Tiles(r.chunks) && NoFreeNeighbours(r.chunks)
    requires i < |r.chunks| && !r.chunks[i].free
    ensures var q := r.(chunks := Release(r.chunks, i));
      && Tiles(q.chunks) && NoFreeNeighbours(q.chunks)
      && LiveIn(q) == LiveIn(r) - {Extent(PayloadAt(r, i), r.chunks[i].size)}
  {
    ReleaseNoFree(r.chunks, i);
    var lo, hi, c := ReleaseShape(r.chunks, i);
    JoinedFree(r.chunks, i, lo, hi);
    var rest := ReleaseParts(r.chunks, Release(r.chunks, i), i, lo, hi, c, r.base);
  }

  lemma {:induction false} JoinedFree(cs: seq<Chunk>, i: nat, lo: nat, hi: nat)
    requires lo <= i < hi <= |cs| && lo + 1 >= i && hi <= i + 2
    requires (lo < i ==> cs[lo].free) && (i + 1 < hi ==> cs[i + 1].free)
    ensures cs[lo..hi][i - lo] == cs[i]
    ensures forall j :: 0 <= j < hi - lo && j != i - lo ==> cs[lo..hi][j].free
  {
    forall j | 0 <= j < hi - lo && j != i - lo ensures cs[lo..hi][j].free {
      assert lo + j == lo || lo + j == i + 1;
    }
  }

  lemma {:induction false} ReleaseParts(cs: seq<Chunk>, ds: seq<Chunk>, i: nat, lo: nat, hi: nat, c: Chunk, at: nat)
    returns (rest: set<Extent>)
    requires lo <= i < hi <= |cs| && !cs[i].free
    requires forall j :: 0 <= j < hi - lo && j != i - lo ==> cs[lo..hi][j].free
    requires c.free && HEADER + c.size == Offset(cs[lo..hi], hi - lo)
    requires ds == cs[..lo] + [c] + cs[hi..]
    ensures Offset(ds, |ds|) == Offset(cs, |cs|)
    ensures LiveFrom(ds, at) == rest && LiveFrom(cs, at) == rest + {Extent(at + Offset(cs, i) + HEADER, cs[i].size)}
    ensures Extent(at + Offset(cs, i) + HEADER, cs[i].size) !in rest
  {
    Around(cs, lo, hi);
    MidOffset(cs, i, lo, hi);
    rest := ReleasedMiddle(cs, ds, cs[..lo], cs[lo..hi], cs[hi..], c, i - lo, at);
  }

  lemma {:induction false} ReleasedMiddle(cs: seq<Chunk>, ds: seq<Chunk>, xs: seq<Chunk>, mid: seq<Chunk>,
                                          ys: seq<Chunk>, c: Chunk, k: nat, at: nat)
    returns (rest: set<Extent>)
    requires cs == xs + mid + ys && ds == xs + [c] + ys && k < |mid| && !mid[k].free
    requires forall j :: 0 <= j < |mid| && j != k ==> mid[j].free
    requires c.free && HEADER + c.size == Offset(mid, |mid|)
    ensures Offset(ds, |ds|) == Offset(cs, |cs|) && LiveFrom(ds, at) == rest
    ensures var x := Extent(at + Offset(xs, |xs|) + Offset(mid, k) + HEADER, mid[k].size);
      LiveFrom(cs, at) == rest + {x} && x !in rest
  {
    var here := at + Offset(xs, |xs|);
    LiveOne(c, here);
    rest := Replaced(xs, mid, [c], ys, at);
    assert rest + {} == rest;
    MidLive(mid, k, here);
    OffsetOrder(mid, k, |mid|);
  }

  lemma {:induction false} MidOffset(cs: seq<Chunk>, i: nat, lo: nat, hi: nat)
    requires lo <= i < hi <= |cs|
    ensures Offset(cs, i) == Offset(cs, lo) + Offset(cs[lo..hi], i - lo)
    ensures Offset(cs[lo..hi], i - lo) + HEADER + cs[i].size <= Offset(cs[lo..hi], hi - lo)
  {
    Around(cs, lo, hi);
    MiddleAt(cs[..lo], cs[lo..hi], cs[hi..], i);
    OffsetOrder(cs[lo..hi], i - lo, hi - lo);
  }

  lemma {:induction false} Around(cs: seq<Chunk>, lo: nat, hi: nat)
    requires lo <= hi <= |cs|
    ensures cs == cs[..lo] + cs[lo..hi] + cs[hi..]
    ensures Offset(cs, lo) == Offset(cs[..lo], lo)
  {
    OffsetPrefix(cs[..lo], cs[lo..], lo);
    assert cs == cs[..lo] + cs[lo..];
  }

  lemma {:induction false} MiddleAt(xs: seq<Chunk>, mid: seq<Chunk>, ys: seq<Chunk>, i: nat)
    requires |xs| <= i < |xs| + |mid|
    ensures Offset(xs + mid + ys, i) == Offset(xs, |xs|) + Offset(mid, i - |xs|)
    ensures (xs + mid + ys)[i] == mid[i - |xs|]
  {
    OffsetSuffix(xs, mid, i - |xs|);
    OffsetPrefix(xs + mid, ys, i);
  }

  // Among the chunks that a release joins, only the released one is live.
  lemma {:induction false} MidLive(mid: seq<Chunk>, k: nat, at: nat)
    requires k < |mid| && !mid[k].free
    requires forall j :: 0 <= j < |mid| && j != k ==> mid[j].free
    ensures LiveFrom(mid, at) == {Extent(at + Offset(mid, k) + HEADER, mid[k].size)}
  {
    LiveMember(mid, at, k);
    forall x | x in LiveFrom(mid, at) ensures x == Extent(at + Offset(mid, k) + HEADER, mid[k].size) {
      LiveFromBounds(mid, at, x);
    }
  }

  // Releasing what was just taken gives back the very same chunk list.
  lemma {:induction false} ReleaseUndoesTake(cs: seq<Chunk>, i: nat, n: nat)
    requires NoFreeNeighbours(cs) && i < |cs| && Serves(cs[i], n)
    ensures Release(Take(cs, i, n), i) == cs
  {
    var ds, rs := Take(cs, i, n), Cut(cs[i].size, n);
    TakeSlices(cs, i, n);
    TakeNoFree(cs, i, n);
    if i > 0 { NotBothFree(cs, i - 1); }
    if i + 1 < |cs| { NotBothFree(cs, i); }
    var lo, hi, c := ReleaseShape(ds, i);
    assert lo == i && hi == i + |rs|;
    CutLive(cs[i].size, n, 0);
  }

  lemma {:induction false} TakeSlices(cs: seq<Chunk>, i: nat, n: nat)
    requires i < |cs| && cs[i].free && n <= cs[i].size
    ensures var ds, rs := Take(cs, i, n), Cut(cs[i].size, n);
      && |ds| == |cs| - 1 + |rs| && ds[..i] == cs[..i] && ds[i..i + |rs|] == rs
      && cs == ds[..i] + [cs[i]] + ds[i + |rs|..] && ds[i] == rs[0] && (|rs| == 2 ==> ds[i + 1] == rs[1])
      && (i > 0 ==> ds[i - 1] == cs[i - 1]) && (i + 1 < |cs| ==> ds[i + |rs|] == cs[i + 1])
  {
  }

  lemma {:induction false} AllFreeIsWhole(cs: seq<Chunk>)
    requires Tiles(cs) && NoFreeNeighbours(cs)
    requires forall i :: 0 <= i < |cs| ==> cs[i].free
    ensures cs == [WHOLE]
  {
    if |cs| > 1 { NotBothFree(cs, 0); }
    assert Offset(cs, 1) == HEADER + cs[0].size;
  }

  // ----- Whole operations

  // Arenas other than a keep their live payloads, which lie elsewhere.
  lemma {:induction false} OneArena(h: seq<Arena>, a: nat, r: Arena)
    requires ValidHeap(h) && a < |h| && r.base == h[a].base
    requires Tiles(r.chunks) && NoFreeNeighbours(r.chunks)
    ensures var g := h[a := r];
      && ValidHeap(g)
      && Live(g) == (Live(h) - LiveIn(h[a])) + LiveIn(r)
  {
    var g := h[a := r];
    assert forall b :: 0 <= b < |h| && b != a ==> g[b] == h[b];
    forall b, c | 0 <= b < c < |g| ensures Separate(g[b].base, g[c].base) {
      assert Separate(h[b].base, h[c].base);
    }
    forall x | x in Live(g) ensures x in (Live(h) - LiveIn(h[a])) + LiveIn(r) {
      var b :| 0 <= b < |g| && x in LiveIn(g[b]);
      if b != a { InOneArena(h, a, b, x); }
    }
    forall x | x in (Live(h) - LiveIn(h[a])) + LiveIn(r) ensures x in Live(g) {
      if x in LiveIn(r) {
        assert x in LiveIn(g[a]);
      } else {
        var b :| 0 <= b < |h| && x in LiveIn(h[b]);
        assert x in LiveIn(g[b]);
      }
    }
  }

  lemma {:induction false} InOneArena(h: seq<Arena>, a: nat, b: nat, x: Extent)
    requires ValidHeap(h) && a < |h| && b < |h| && a != b && x in LiveIn(h[b])
    ensures x in Live(h) && x !in LiveIn(h[a])
  {
    LiveBounds(h[b], x);
    if x in LiveIn(h[a]) { LiveBounds(h[a], x); }
    Apart(h, a, b);
  }

  lemma {:induction false} MallocKeeps(h: seq<Arena>, n: nat) returns (s: nat)
    requires ValidHeap(h) && FirstArena(h, n, 0) < |h|
    ensures var (g, p) := TakeFrom(h, n);
      && ValidHeap(g)
      && n <= s < n + HEADER + SPLIT_THRESHOLD
      && Live(g) == Live(h) + {Extent(p, s)}
      && forall y :: y in Live(h) ==> y.at != p
  {
    var a := FirstArena(h, n, 0);
    var i := FirstFit(h[a].chunks, n, 0);
    TakeKeeps(h[a], i, n);
    var r := h[a].(chunks := Take(h[a].chunks, i, n));
    s := r.chunks[i].size;
    OneArena(h, a, r);
    assert LiveIn(h[a]) <= Live(h);
    OffsetOrder(h[a].chunks, i, |h[a].chunks|);
    forall y | y in Live(h) ensures y.at != PayloadAt(h[a], i) {
      var b :| 0 <= b < |h| && y in LiveIn(h[b]);
      if b != a {
        LiveBounds(h[b], y);
        Apart(h, a, b);
      }
    }
  }

  lemma {:induction false} OneLess(h: seq<Arena>, a: nat, r: Arena, x0: Extent)
    requires ValidHeap(h) && a < |h| && r.base == h[a].base
    requires Tiles(r.chunks) && NoFreeNeighbours(r.chunks)
    requires x0 in LiveIn(h[a]) && LiveIn(r) == LiveIn(h[a]) - {x0}
    ensures ValidHeap(h[a := r]) && x0 in Live(h) && Live(h[a := r]) == Live(h) - {x0}
  {
    OneArena(h, a, r);
    assert LiveIn(h[a]) <= Live(h);
  }

  lemma {:induction false} FreeKeeps(h: seq<Arena>, a: nat, i: nat)
    requires ValidHeap(h) && a < |h| && i < |h[a].chunks| && !h[a].chunks[i].free
    ensures var g := ReleaseIn(h, a, i);
      && ValidHeap(g)
      && Extent(PayloadAt(h[a], i), h[a].chunks[i].size) in Live(h)
      && Live(g) == Live(h) - {Extent(PayloadAt(h[a], i), h[a].chunks[i].size)}
  {
    LiveMember(h[a].chunks, h[a].base, i);
    ReleaseKeeps(h[a], i);
    OneLess(h, a, h[a].(chunks := Release(h[a].chunks, i)), Extent(PayloadAt(h[a], i), h[a].chunks[i].size));
  }

  lemma {:induction false} GrownKeeps(h: seq<Arena>, base: nat)
    requires ValidHeap(h) && forall a :: 0 <= a < |h| ==> Separate(h[a].base, base)
    ensures ValidHeap(Grown(h, base)) && Live(Grown(h, base)) == Live(h)
  {
    var g := Grown(h, base);
    LiveOne(WHOLE, base);
    forall x | x in Live(g) ensures x in Live(h) {
      var a :| 0 <= a < |g| && x in LiveIn(g[a]);
      assert a < |h|;
    }
    forall x | x in Live(h) ensures x in Live(g) {
      var a :| 0 <= a < |h| && x in LiveIn(h[a]);
      assert g[a] == h[a];
    }
  }
}
