// The kernel heap of src/mm/heap.c as it runs: chunk headers written byte by
// byte into memory, and the list of arenas.
module KernelHeap {
  import opened Bytes
  import opened ChunkLists
  import opened HeapMemory
  import opened HeapRuns
  import opened Common

  ghost predicate AllSeparate(bs: seq<nat>) {
    forall i, j :: 0 <= i < j < |bs| ==> Separate(bs[i], bs[j])
  }

  // The headers in memory m link the chunks of h, whose arenas lie at bs; cs
  // are blocks of memory kept for new arenas.
  ghost predicate Backs(m: seq<byte>, h: seq<Arena>, bs: seq<nat>, cs: seq<nat>) {
    && |m| <= U64
    && |h| == |bs| > 0
    && (forall a :: 0 <= a < |h| ==> h[a].base == bs[a] && Represents(m, h[a]))
    && (forall b :: 0 <= b < |cs| ==> 0 < cs[b] && cs[b] + ARENA_SIZE <= |m|)
    && AllSeparate(bs + cs)
  }

  // The pieces that __split_block leaves of a free chunk.
  function Halves(size: nat, n: nat): seq<Chunk>
    requires n <= size
  {
    if size - n < HEADER + SPLIT_THRESHOLD then [Chunk(size, true)]
    else [Chunk(n, true), Chunk(size - n - HEADER, true)]
  }

  function NextBlock(blocks: seq<nat>): nat {
    if blocks == [] then 0 else blocks[0]
  }

  class Heap {
    var mem: seq<byte>
    // Base of each arena, in the order of the arena list.
    var arenas: seq<nat>
    // Addresses of the order-2 blocks that mm_block_alloc will hand out next;
    // it panics when there is none.
    var blocks: seq<nat>
    // The chunks that the headers in memory link.
    ghost var heap: seq<Arena>

    ghost predicate Backed()
      reads this
    {
      Backs(mem, heap, arenas, blocks)
    }

    ghost predicate Valid()
      reads this
    {
      Backed() && ValidHeap(heap)
    }

    // mm_heap_init
    constructor (mem: seq<byte>, blocks: seq<nat>)
      requires |mem| <= U64 && blocks != [] && AllSeparate(blocks)
      requires forall b :: 0 <= b < |blocks| ==> 0 < blocks[b] && blocks[b] + ARENA_SIZE <= |mem|
      ensures Valid() && heap == [Arena(blocks[0], [WHOLE])]
      ensures this.blocks == blocks[1..]
    {
      this.mem, this.blocks, this.arenas := mem, blocks[1..], [blocks[0]];
      this.heap := [Arena(blocks[0], [WHOLE])];
      new;
      InitChunk(blocks[0]);
      assert arenas + this.blocks == blocks;
      LiveOne(WHOLE, blocks[0]);
    }

    // Makes the arena at base one free chunk.
    method InitChunk(base: nat)
      requires 0 < base && base + ARENA_SIZE <= |mem| <= U64
      modifies this`mem
      ensures Represents(mem, Arena(base, [WHOLE]))
      ensures SameOutside(old(mem), mem, base, base + HEADER)
    {
      mem := WithFree(mem, base, true);
      mem := WithNext(mem, base, 0);
      mem := WithPrev(mem, base, 0);
      mem := WithSize(mem, base, ARENA_SIZE - HEADER);
      LiveOne(WHOLE, base);
    }

    // __alloc_arena
    method AllocArena() returns (ok: bool)
      requires Valid()
      modifies this
      ensures ok == (old(blocks) != [])
      ensures !ok ==> mem == old(mem) && arenas == old(arenas) && blocks == old(blocks) && heap == old(heap)
      ensures ok ==> Valid() && heap == Grown(old(heap), old(blocks)[0]) && blocks == old(blocks)[1..]
      ensures ok ==> forall a :: 0 <= a < |old(heap)| ==> Separate(old(heap)[a].base, old(blocks)[0])
      ensures Live(heap) == Live(old(heap))
      ensures forall x :: x in Live(old(heap)) ==> SamePayload(old(mem), mem, x)
      ensures |mem| == |old(mem)|
    {
      if blocks == [] {
        ok := false;
        InBounds(mem, heap);
        return;
      }
      var base := blocks[0];
      assert arenas + blocks == (arenas + [base]) + blocks[1..];
      forall a | 0 <= a < |heap| ensures Separate(heap[a].base, base) {
        assert (arenas + blocks)[a] == heap[a].base && (arenas + blocks)[|arenas|] == base;
      }
      GrownKeeps(heap, base);
      InitChunk(base);
      forall a | 0 <= a < |heap| ensures Represents(mem, heap[a]) {
        OtherArena(old(mem), mem, heap[a], base, base + HEADER);
      }
      AwayFrom(old(mem), heap, base);
      OthersSame(old(mem), mem, heap, base, base + HEADER);
      arenas := arenas + [base];
      blocks := blocks[1..];
      heap := Grown(heap, base);
      ok := true;
    }

    // __split_block. The chunk stays free; kmalloc marks it used.
    method SplitBlock(block: nat, n: nat, ghost a: nat, ghost i: nat)
      requires Backed() && a < |heap| && i < |heap[a].chunks|
      requires block == HeaderAt(heap[a], i) && Serves(heap[a].chunks[i], n)
      modifies this`mem, this`heap
      ensures Backed() && |mem| == |old(mem)|
      ensures heap == old(heap)[a := old(heap)[a].(chunks :=
                Splice(old(heap)[a].chunks, i, 1, Halves(old(heap)[a].chunks[i].size, n)))]
      ensures Live(heap) == Live(old(heap))
      ensures forall x :: x in Live(old(heap)) ==> SamePayload(old(mem), mem, x)
    {
      ghost var r := heap[a];
      assert HeaderIn(mem, HeaderAt(r, i)) == Linked(r, i);
      var size := HeaderIn(mem, block).size;
      if size - n < HEADER + SPLIT_THRESHOLD {
        assert Splice(r.chunks, i, 1, Halves(size, n)) == r.chunks;
        InBounds(mem, heap);
        return;
      }
      HeaderInArena(r, i);
      if i + 1 < |r.chunks| { NextHeader(r, i); }
      WriteSplit(block, n);
      heap := Divided(old(mem), mem, heap, arenas, blocks, a, i, n);
    }

    // The stores of __split_block.
    method WriteSplit(block: nat, n: nat)
      requires |mem| <= U64
      requires var h := HeaderIn(mem, block);
        && HEADER + SPLIT_THRESHOLD <= h.size - n
        && block + HEADER + h.size <= |mem|
        && (h.next != 0 ==> block + HEADER + h.size == h.next && h.next + HEADER <= |mem|)
      modifies this`mem
      ensures var h := HeaderIn(old(mem), block);
        var piece := block + HEADER + n;
        && HeaderIn(mem, block) == h.(size := n, next := piece)
        && HeaderIn(mem, piece) == Header(h.size - n - HEADER, true, h.next, block)
        && (h.next != 0 ==> HeaderIn(mem, h.next) == HeaderIn(old(mem), h.next).(prev := piece))
        && SameOutside(old(mem), mem, block, if h.next != 0 then h.next + HEADER else block + HEADER + h.size)
    {
      var piece := block + HEADER + n;
      ghost var m, end := mem, block + HEADER + HeaderIn(mem, block).size;
      CutSizes(block, n);
      HeadersOutside(m, mem, block, end);
      var next := HeaderIn(mem, block).next;
      if next != 0 { mem := WithPrev(mem, next, piece); }
      ghost var w := mem;
      LinkPiece(block, piece);
      HeadersOutside(w, mem, block, piece + HEADER);
    }

    method CutSizes(block: nat, n: nat)
      requires |mem| <= U64
      requires HEADER + SPLIT_THRESHOLD <= HeaderIn(mem, block).size - n
      requires block + HEADER + HeaderIn(mem, block).size <= |mem|
      modifies this`mem
      ensures var h := HeaderIn(old(mem), block);
        && HeaderIn(mem, block) == h.(size := n)
        && HeaderIn(mem, block + HEADER + n).size == h.size - n - HEADER && HeaderIn(mem, block + HEADER + n).free
        && SameOutside(old(mem), mem, block, block + HEADER + h.size)
    {
      var piece := block + HEADER + n;
      mem := WithSize(mem, piece, HeaderIn(mem, block).size - n - HEADER);
      mem := WithFree(mem, piece, true);
      mem := WithSize(mem, block, n);
    }

    method LinkPiece(block: nat, piece: nat)
      requires block + HEADER <= piece && piece + HEADER <= |mem| <= U64 && HeaderIn(mem, block).next < U64
      modifies this`mem
      ensures HeaderIn(mem, block) == HeaderIn(old(mem), block).(next := piece)
      ensures HeaderIn(mem, piece) ==
        HeaderIn(old(mem), piece).(next := HeaderIn(old(mem), block).next, prev := block)
      ensures SameOutside(old(mem), mem, block, piece + HEADER)
    {
      mem := WithNext(mem, piece, HeaderIn(mem, block).next);
      mem := WithNext(mem, block, piece);
      mem := WithPrev(mem, piece, block);
    }

    // Sets the free flag of a chunk, as kmalloc and kfree do.
    method SetFree(block: nat, v: bool, ghost a: nat, ghost i: nat)
      requires Backed() && a < |heap| && i < |heap[a].chunks| && block == HeaderAt(heap[a], i)
      modifies this`mem, this`heap
      ensures Backed() && |mem| == |old(mem)|
      ensures var cs := old(heap)[a].chunks;
        heap == old(heap)[a := old(heap)[a].(chunks := cs[i := cs[i].(free := v)])]
      ensures block == HeaderAt(heap[a], i)
      ensures forall x :: x in Live(old(heap)) ==> SamePayload(old(mem), mem, x)
    {
      ghost var r := heap[a];
      assert HeaderIn(mem, HeaderAt(r, i)) == Linked(r, i);
      HeaderInArena(r, i);
      mem := WithFree(mem, block, v);
      heap := Flagged(old(mem), mem, heap, arenas, blocks, a, i, v);
    }

    // __find_free: returns NULL when no arena has a chunk for n.
    method FindFree(n: nat) returns (block: nat, ghost a: nat, ghost i: nat)
      requires Backed() && n > 0
      modifies this`mem, this`heap
      ensures Backed() && |mem| == |old(mem)|
      ensures forall x :: x in Live(old(heap)) ==> SamePayload(old(mem), mem, x)
      ensures block == 0 <==> FirstArena(old(heap), n, 0) == |old(heap)|
      ensures block == 0 ==> heap == old(heap) && mem == old(mem)
      ensures Live(heap) == Live(old(heap))
      ensures block != 0 ==>
        && a == FirstArena(old(heap), n, 0) && i == FirstFit(old(heap)[a].chunks, n, 0)
        && heap == old(heap)[a := old(heap)[a].(chunks :=
             Splice(old(heap)[a].chunks, i, 1, Halves(old(heap)[a].chunks[i].size, n)))]
        && block == HeaderAt(old(heap)[a], i)
    {
      a, i := 0, 0;
      var k := 0;
      while k < |arenas|
        invariant 0 <= k <= |arenas| && Backed() && heap == old(heap) && mem == old(mem)
        invariant FirstArena(heap, n, 0) == FirstArena(heap, n, k)
      {
        block, i := FindInArena(n, k);
        if block != 0 {
          a := k;
          SplitBlock(block, n, a, i);
          return;
        }
        k := k + 1;
      }
      block := 0;
      InBounds(mem, heap);
    }

    // The walk over one arena's headers in __find_free.
    method FindInArena(n: nat, k: nat) returns (block: nat, ghost i: nat)
      requires Backed() && k < |arenas|
      ensures i == FirstFit(heap[k].chunks, n, 0)
      ensures block == if i < |heap[k].chunks| then HeaderAt(heap[k], i) else 0
    {
      ghost var r := heap[k];
      block, i := arenas[k], 0;
      assert HeaderIn(mem, HeaderAt(r, 0)) == Linked(r, 0);
      while block != 0 && !(HeaderIn(mem, block).free && HeaderIn(mem, block).size >= n)
        invariant i <= |r.chunks|
        invariant FirstFit(r.chunks, n, 0) == FirstFit(r.chunks, n, i)
        invariant block == if i < |r.chunks| then HeaderAt(r, i) else 0
        invariant i < |r.chunks| ==> HeaderIn(mem, block) == Linked(r, i)
        decreases |r.chunks| - i
      {
        block := HeaderIn(mem, block).next;
        i := i + 1;
        assert i < |r.chunks| ==> HeaderIn(mem, HeaderAt(r, i)) == Linked(r, i);
      }
    }

    // Joins chunk i with the free chunk after it.
    method JoinBlocks(head: nat, next: nat, ghost a: nat, ghost i: nat)
      requires Backed() && a < |heap| && i + 1 < |heap[a].chunks|
      requires head == HeaderAt(heap[a], i) && next == HeaderAt(heap[a], i + 1)
      requires heap[a].chunks[i].free && heap[a].chunks[i + 1].free
      modifies this`mem, this`heap
      ensures Backed() && |mem| == |old(mem)|
      ensures heap == old(heap)[a := old(heap)[a].(chunks := Join(old(heap)[a].chunks, i))]
      ensures Live(heap) == Live(old(heap))
      ensures forall x :: x in Live(old(heap)) ==> SamePayload(old(mem), mem, x)
    {
      ghost var r := heap[a];
      JoinReady(mem, r, i);
      WriteJoin(head, next);
      heap := Joined(old(mem), mem, heap, arenas, blocks, a, i);
    }

    // The stores of one merge step.
    method WriteJoin(head: nat, next: nat)
      requires var h := HeaderIn(mem, head);
        var t := HeaderIn(mem, next);
        && head + HEADER + h.size == next
        && next + HEADER + t.size <= |mem| <= U64
        && (t.next != 0 ==> next + HEADER + t.size == t.next && t.next + HEADER <= |mem|)
      modifies this`mem
      ensures var h := HeaderIn(old(mem), head);
        var t := HeaderIn(old(mem), next);
        && HeaderIn(mem, head) == h.(size := h.size + t.size + HEADER, next := t.next)
        && (t.next != 0 ==> HeaderIn(mem, t.next) == HeaderIn(old(mem), t.next).(prev := head))
        && SameOutside(old(mem), mem, head, if t.next != 0 then t.next + HEADER else next + HEADER + t.size)
    {
      var after := HeaderIn(mem, next).next;
      mem := WithSize(mem, head, HeaderIn(mem, head).size + HeaderIn(mem, next).size + HEADER);
      mem := WithNext(mem, head, after);
      if after != 0 { mem := WithPrev(mem, after, head); }
    }

    // __merge_blocks_prev
    method MergeBlocksPrev(cur: nat, prev: nat, ghost a: nat, ghost i: nat) returns (head: nat, ghost k: nat)
      requires Backed() && a < |heap| && i < |heap[a].chunks| && heap[a].chunks[i].free
      requires cur == HeaderAt(heap[a], i) && prev == Linked(heap[a], i).prev
      modifies this`mem, this`heap
      ensures Backed() && |mem| == |old(mem)|
      ensures k == MergePrev(old(heap)[a].chunks, i).1 && Live(heap) == Live(old(heap))
      ensures heap == old(heap)[a := old(heap)[a].(chunks := MergePrev(old(heap)[a].chunks, i).0)]
      ensures head == HeaderAt(heap[a], k) && heap[a].chunks[k].free
      ensures forall x :: x in Live(old(heap)) ==> SamePayload(old(mem), mem, x)
      decreases i
    {
      ghost var r := heap[a];
      if i > 0 { PrevHeader(mem, r, i); }
      if prev == 0 || !HeaderIn(mem, prev).free {
        InBounds(mem, heap);
        return cur, i;
      }
      JoinBlocks(prev, cur, a, i - 1);
      HeadOfJoin(r, i - 1);
      assert HeaderIn(mem, HeaderAt(heap[a], i - 1)) == Linked(heap[a], i - 1);
      head, k := MergeBlocksPrev(prev, HeaderIn(mem, prev).prev, a, i - 1);
    }

    // __merge_blocks_next
    method MergeBlocksNext(cur: nat, next: nat, ghost a: nat, ghost i: nat)
      requires Backed() && a < |heap| && i < |heap[a].chunks| && heap[a].chunks[i].free
      requires cur == HeaderAt(heap[a], i) && next == Linked(heap[a], i).next
      modifies this`mem, this`heap
      ensures Backed() && |mem| == |old(mem)|
      ensures heap == old(heap)[a := old(heap)[a].(chunks := MergeNext(old(heap)[a].chunks, i))]
      ensures Live(heap) == Live(old(heap))
      ensures forall x :: x in Live(old(heap)) ==> SamePayload(old(mem), mem, x)
      decreases |heap[a].chunks|
    {
      ghost var r := heap[a];
      assert i + 1 < |r.chunks| ==> HeaderIn(mem, HeaderAt(r, i + 1)) == Linked(r, i + 1);
      if next == 0 || !HeaderIn(mem, next).free {
        InBounds(mem, heap);
        return;
      }
      JoinBlocks(cur, next, a, i);
      HeadOfJoin(r, i);
      assert HeaderIn(mem, HeaderAt(heap[a], i)) == Linked(heap[a], i);
      MergeBlocksNext(cur, HeaderIn(mem, cur).next, a, i);
    }

    // Finds a chunk for n and marks it used; None when __find_free returns NULL.
    method TryMalloc(n: nat) returns (r: Option<nat>)
      requires Backed() && n > 0
      modifies this`mem, this`heap
      ensures Backed() && |mem| == |old(mem)|
      ensures r == None <==> FirstArena(old(heap), n, 0) == |old(heap)|
      ensures r == None ==> heap == old(heap)
      ensures r.Some? ==> (heap, r.value) == TakeFrom(old(heap), n)
      ensures forall x :: x in Live(old(heap)) ==> SamePayload(old(mem), mem, x)
    {
      var block: nat;
      ghost var a, i;
      block, a, i := FindFree(n);
      if block == 0 { return None; }
      MarkTaken(old(heap), n);
      SetFree(block, false, a, i);
      assert heap == old(heap)[a := old(heap)[a].(chunks := Take(old(heap)[a].chunks, i, n))];
      r := Some(block + HEADER);
    }

    // kmalloc: None where the kernel panics.
    method KMalloc(n: nat) returns (r: Option<nat>)
      requires Valid() && n > 0
      modifies this
      ensures Valid() && |mem| == |old(mem)|
      ensures r.Some? ==> Step(old(heap), Malloc(n, NextBlock(old(blocks)), r.value), heap)
      ensures r == None <==>
        FirstArena(old(heap), n, 0) == |old(heap)| && (old(blocks) == [] || n > WHOLE.size)
      ensures blocks ==
        if FirstArena(old(heap), n, 0) == |old(heap)| && old(blocks) != [] then old(blocks)[1..] else old(blocks)
      ensures forall x :: x in Live(old(heap)) ==> SamePayload(old(mem), mem, x)
    {
      r := TryMalloc(n);
      if r.Some? {
        ghost var s := MallocKeeps(old(heap), n);
        return;
      }
      var ok := AllocArena();
      if !ok { return; }
      GrownFit(old(heap), old(blocks)[0], n);
      ghost var g := heap;
      r := TryMalloc(n);
      if r.Some? { ghost var s := MallocKeeps(g, n); }
    }

    // kfree. The payload must be one that is handed out.
    method KFree(p: nat)
      requires Valid() && exists a: nat, i: nat :: Holds(heap, a, i, p)
      modifies this
      ensures Valid() && |mem| == |old(mem)| && blocks == old(blocks) && arenas == old(arenas)
      ensures Step(old(heap), Free(p), heap)
      ensures forall x :: x in Live(heap) ==> SamePayload(old(mem), mem, x)
    {
      ghost var a: nat, i: nat :| Holds(heap, a, i, p);
      var block := p - HEADER;
      SetFree(block, true, a, i);
      Coalesce(block, a, i);
      Freed(old(heap), a, i, p, heap);
    }

    // The two merges of kfree.
    method Coalesce(block: nat, ghost a: nat, ghost i: nat)
      requires Backed() && a < |heap| && i < |heap[a].chunks| && heap[a].chunks[i].free
      requires block == HeaderAt(heap[a], i)
      modifies this`mem, this`heap
      ensures Backed() && |mem| == |old(mem)| && Live(heap) == Live(old(heap))
      ensures var (ds, k) := MergePrev(old(heap)[a].chunks, i);
        heap == old(heap)[a := old(heap)[a].(chunks := MergeNext(ds, k))]
      ensures forall x :: x in Live(heap) ==> SamePayload(old(mem), mem, x)
    {
      assert HeaderIn(mem, HeaderAt(heap[a], i)) == Linked(heap[a], i);
      var head: nat;
      ghost var k;
      head, k := MergeBlocksPrev(block, HeaderIn(mem, block).prev, a, i);
      assert HeaderIn(mem, HeaderAt(heap[a], k)) == Linked(heap[a], k);
      MergeBlocksNext(head, HeaderIn(mem, head).next, a, k);
    }

    // A client fills its own allocation.
    method Store(p: nat, s: seq<byte>, ghost x: Extent)
      requires Valid() && x in Live(heap) && x.at <= p && p + |s| <= x.at + x.size
      modifies this`mem
      ensures Valid() && SameOutside(old(mem), mem, p, p + |s|)
      ensures p + |s| <= |mem| && mem[p..p + |s|] == s
    {
      ghost var a :| 0 <= a < |heap| && x in LiveIn(heap[a]);
      LiveBounds(heap[a], x);
      mem := Put(mem, p, s);
      forall b | 0 <= b < |heap| ensures Represents(mem, heap[b]) {
        if b == a {
          ClientWrite(old(mem), mem, heap[a], x);
        } else {
          SeparateArenas(arenas, blocks, a, b);
          OtherArena(old(mem), mem, heap[b], x.at, x.at + x.size);
        }
      }
    }
  }

  // Writes that stay clear of every live payload change no live byte.
  lemma {:induction false} OthersSame(m: seq<byte>, w: seq<byte>, h: seq<Arena>, lo: nat, hi: nat)
    requires SameOutside(m, w, lo, hi)
    requires forall a :: 0 <= a < |h| ==> Represents(m, h[a])
    requires forall x :: x in Live(h) ==> x.at + x.size <= lo || hi <= x.at
    ensures forall x :: x in Live(h) ==> SamePayload(m, w, x)
  {
    forall x | x in Live(h) ensures SamePayload(m, w, x) {
      var a :| 0 <= a < |h| && x in LiveIn(h[a]);
      LiveBounds(h[a], x);
    }
  }

  lemma {:induction false} InBounds(m: seq<byte>, h: seq<Arena>)
    requires forall a :: 0 <= a < |h| ==> Represents(m, h[a])
    ensures forall x :: x in Live(h) ==> SamePayload(m, m, x)
  {
    forall x | x in Live(h) ensures SamePayload(m, m, x) {
      var a :| 0 <= a < |h| && x in LiveIn(h[a]);
      LiveBounds(h[a], x);
    }
  }

  // Writes between header i and header i + n of arena a that leave the headers
  // of rs there.
  lemma {:induction false} Relinked(m: seq<byte>, w: seq<byte>, h: seq<Arena>, bs: seq<nat>, cs: seq<nat>, a: nat,
                                    i: nat, n: nat, rs: seq<Chunk>)
    returns (g: seq<Arena>)
    requires Backs(m, h, bs, cs) && a < |h| && i + n <= |h[a].chunks| && rs != []
    requires Offset(rs, |rs|) == Offset(h[a].chunks[i..i + n], n)
    requires SameOutside(m, w, HeaderAt(h[a], i), HeaderEnd(h[a], i + n))
    requires HeadersLinked(w, h[a].(chunks := Splice(h[a].chunks, i, n, rs)), i, |rs|)
    ensures g == h[a := h[a].(chunks := Splice(h[a].chunks, i, n, rs))]
    ensures Backs(w, g, bs, cs)
  {
    var r := h[a];
    Rewritten(m, w, r, i, n, rs);
    RegionInArena(r, i, n);
    g := h[a := r.(chunks := Splice(r.chunks, i, n, rs))];
    forall b | 0 <= b < |g| && b != a ensures Represents(w, g[b]) {
      SeparateArenas(bs, cs, a, b);
      OtherArena(m, w, h[b], HeaderAt(r, i), HeaderEnd(r, i + n));
    }
  }

  // The headers that WriteSplit leaves for chunk i of r.
  ghost predicate SplitStored(w: seq<byte>, r: Arena, i: nat, n: nat)
    requires i < |r.chunks| && n + HEADER <= r.chunks[i].size
  {
    var block, piece := HeaderAt(r, i), PayloadAt(r, i) + n;
    && HeaderIn(w, block) == Linked(r, i).(size := n, next := piece)
    && HeaderIn(w, piece) == Header(r.chunks[i].size - n - HEADER, true, Linked(r, i).next, block)
    && (i + 1 < |r.chunks| ==> HeaderIn(w, HeaderAt(r, i + 1)) == Linked(r, i + 1).(prev := piece))
  }

  // They are the headers of the two halves.
  lemma {:induction false} SplitLinked(w: seq<byte>, r: Arena, i: nat, n: nat) returns (rs: seq<Chunk>)
    requires i < |r.chunks| && r.chunks[i].free && HEADER + SPLIT_THRESHOLD <= r.chunks[i].size - n
    requires SplitStored(w, r, i, n)
    ensures rs == Halves(r.chunks[i].size, n) && Replacement(w, r, i, 1, rs)
  {
    rs := Halves(r.chunks[i].size, n);
    var q := r.(chunks := Splice(r.chunks, i, 1, rs));
    HalvesSpan(r.chunks[i].size, n);
    OneSpan(r.chunks, i);
    SplicedLinks(r, q, i, 1, rs);
    SplitHeaders(w, r, q, i, n, rs);
  }

  // In w the chunks rs, all free, take the place of the n chunks from i on,
  // which are free too.
  ghost predicate Replacement(w: seq<byte>, r: Arena, i: nat, n: nat, rs: seq<Chunk>) {
    && i + n <= |r.chunks| && rs != []
    && (forall j :: i <= j < i + n ==> r.chunks[j].free)
    && (forall j :: 0 <= j < |rs| ==> rs[j].free)
    && Offset(rs, |rs|) == Offset(r.chunks[i..i + n], n)
    && HeadersLinked(w, r.(chunks := Splice(r.chunks, i, n, rs)), i, |rs|)
  }

  lemma {:induction false} HalvesSpan(size: nat, n: nat)
    requires HEADER + SPLIT_THRESHOLD <= size - n
    ensures Offset(Halves(size, n), 1) == HEADER + n && Offset(Halves(size, n), 2) == HEADER + size
  {
    var rs := Halves(size, n);
    assert Offset(rs, 1) == HEADER + n;
    assert Offset(rs, 2) == Offset(rs, 1) + HEADER + rs[1].size;
  }

  lemma {:induction false} OneSpan(cs: seq<Chunk>, i: nat)
    requires i < |cs|
    ensures Offset(cs[i..i + 1], 1) == HEADER + cs[i].size
  {
  }

  lemma {:induction false} SplitHeaders(w: seq<byte>, r: Arena, q: Arena, i: nat, n: nat, rs: seq<Chunk>)
    requires i < |r.chunks| && r.chunks[i].free && HEADER + SPLIT_THRESHOLD <= r.chunks[i].size - n
    requires SplitStored(w, r, i, n) && rs == Halves(r.chunks[i].size, n)
    requires q == r.(chunks := Splice(r.chunks, i, 1, rs)) && HeaderAt(q, i) == HeaderAt(r, i) && q.chunks[i] == rs[0]
    requires Linked(q, i).prev == Linked(r, i).prev && |q.chunks| == |r.chunks| + 1
    requires i + 1 < |r.chunks| ==>
      && HeaderAt(q, i + 2) == HeaderAt(r, i + 1)
      && Linked(q, i + 2) == Linked(r, i + 1).(prev := HeaderAt(q, i + 1))
    ensures HeadersLinked(w, q, i, 2)
  {
    assert HeaderAt(q, i + 1) == PayloadAt(r, i) + n;
    assert q.chunks[i + 1] == rs[1];
    TwoLinked(w, q, i);
    ThreeLinked(w, q, i);
  }

  // Every live payload lies away from an arena-sized block that is separate
  // from all arenas.
  lemma {:induction false} AwayFrom(m: seq<byte>, h: seq<Arena>, base: nat)
    requires forall a :: 0 <= a < |h| ==> Represents(m, h[a]) && Separate(h[a].base, base)
    ensures forall x :: x in Live(h) ==> x.at + x.size <= base || base + ARENA_SIZE <= x.at
  {
    forall x | x in Live(h) ensures x.at + x.size <= base || base + ARENA_SIZE <= x.at {
      var a :| 0 <= a < |h| && x in LiveIn(h[a]);
      LiveBounds(h[a], x);
    }
  }

  lemma {:induction false} SeparateArenas(bs: seq<nat>, cs: seq<nat>, a: nat, b: nat)
    requires AllSeparate(bs + cs) && a < |bs| && b < |bs| && a != b
    ensures Separate(bs[a], bs[b])
  {
    assert bs[a] == (bs + cs)[a] && bs[b] == (bs + cs)[b];
  }

  lemma {:induction false} RegionInArena(r: Arena, i: nat, n: nat)
    requires Tiles(r.chunks) && i + n <= |r.chunks|
    ensures r.base <= HeaderAt(r, i) && HeaderEnd(r, i + n) <= r.base + ARENA_SIZE
  {
    if i + n < |r.chunks| { HeaderInArena(r, i + n); }
  }

  // Writes between header i and header i + n of arena a change no live byte
  // when the chunks in between are free.
  lemma {:induction false} RegionSame(m: seq<byte>, w: seq<byte>, h: seq<Arena>, bs: seq<nat>, cs: seq<nat>, a: nat,
                                      i: nat, n: nat)
    requires Backs(m, h, bs, cs) && a < |h|
    requires i + n <= |h[a].chunks| && forall j :: i <= j < i + n ==> h[a].chunks[j].free
    requires SameOutside(m, w, HeaderAt(h[a], i), HeaderEnd(h[a], i + n))
    ensures forall x :: x in Live(h) ==> SamePayload(m, w, x)
  {
    var lo, hi := HeaderAt(h[a], i), HeaderEnd(h[a], i + n);
    RegionInArena(h[a], i, n);
    forall x | x in Live(h) ensures x.at + x.size <= lo || hi <= x.at {
      var b :| 0 <= b < |h| && x in LiveIn(h[b]);
      if b == a {
        RegionApart(h[a], i, n, x);
      } else {
        LiveBounds(h[b], x);
        SeparateArenas(bs, cs, a, b);
      }
    }
    OthersSame(m, w, h, lo, hi);
  }

  lemma {:induction false} NextHeader(r: Arena, i: nat)
    requires Tiles(r.chunks) && i + 1 < |r.chunks|
    ensures HeaderAt(r, i + 1) == PayloadAt(r, i) + r.chunks[i].size
    ensures HeaderAt(r, i + 1) + HEADER <= r.base + ARENA_SIZE
  {
    HeaderInArena(r, i + 1);
  }

  lemma {:induction false} FlagLinked(m: seq<byte>, w: seq<byte>, r: Arena, i: nat, v: bool)
    requires Represents(m, r) && i < |r.chunks|
    requires HeaderIn(w, HeaderAt(r, i)) == Linked(r, i).(free := v)
    requires SameOutside(m, w, HeaderAt(r, i), HeaderAt(r, i) + HEADER)
    ensures var rs := [r.chunks[i].(free := v)];
      && Offset(rs, 1) == Offset(r.chunks[i..i + 1], 1)
      && HeadersLinked(w, r.(chunks := Splice(r.chunks, i, 1, rs)), i, 1)
  {
    var rs := [r.chunks[i].(free := v)];
    var q := r.(chunks := Splice(r.chunks, i, 1, rs));
    FlagSpan(r.chunks, i, v);
    SplicedLinks(r, q, i, 1, rs);
    if i + 1 < |r.chunks| { NextUntouched(m, w, r, i); }
    FlagHeaders(w, r, q, i, v);
  }

  lemma {:induction false} FlagHeaders(w: seq<byte>, r: Arena, q: Arena, i: nat, v: bool)
    requires i < |r.chunks| && |q.chunks| == |r.chunks| && q.chunks[i] == r.chunks[i].(free := v)
    requires HeaderAt(q, i) == HeaderAt(r, i) && Linked(q, i).prev == Linked(r, i).prev
    requires HeaderIn(w, HeaderAt(r, i)) == Linked(r, i).(free := v)
    requires i + 1 < |r.chunks| ==>
      && HeaderAt(q, i + 1) == HeaderAt(r, i + 1)
      && Linked(q, i + 1) == Linked(r, i + 1).(prev := HeaderAt(q, i))
      && HeaderIn(w, HeaderAt(r, i + 1)) == Linked(r, i + 1)
    ensures HeadersLinked(w, q, i, 1)
  {
    TwoLinked(w, q, i);
  }

  lemma {:induction false} FlagSpan(cs: seq<Chunk>, i: nat, v: bool)
    requires i < |cs|
    ensures Offset([cs[i].(free := v)], 1) == HEADER + cs[i].size == Offset(cs[i..i + 1], 1)
  {
    assert Offset([cs[i].(free := v)], 1) == HEADER + cs[i].size;
  }

  lemma {:induction false} NextUntouched(m: seq<byte>, w: seq<byte>, r: Arena, i: nat)
    requires Represents(m, r) && i + 1 < |r.chunks|
    requires SameOutside(m, w, HeaderAt(r, i), HeaderAt(r, i) + HEADER)
    ensures HeaderIn(w, HeaderAt(r, i + 1)) == Linked(r, i + 1)
    ensures HeaderAt(r, i + 1) == PayloadAt(r, i) + r.chunks[i].size
  {
    HeadersOutside(m, w, HeaderAt(r, i), HeaderAt(r, i) + HEADER);
    NextHeader(r, i);
    assert HeaderIn(m, HeaderAt(r, i + 1)) == Linked(r, i + 1);
  }

  // The headers that WriteJoin leaves.
  ghost predicate JoinStored(w: seq<byte>, r: Arena, i: nat)
    requires i + 1 < |r.chunks|
  {
    && HeaderIn(w, HeaderAt(r, i)) ==
       Linked(r, i).(size := r.chunks[i].size + r.chunks[i + 1].size + HEADER, next := Linked(r, i + 1).next)
    && (i + 2 < |r.chunks| ==> HeaderIn(w, HeaderAt(r, i + 2)) == Linked(r, i + 2).(prev := HeaderAt(r, i)))
  }

  // The first is the header of the joined chunk.
  lemma {:induction false} JoinLinked(w: seq<byte>, r: Arena, i: nat)
    requires i + 1 < |r.chunks| && r.chunks[i].free && r.chunks[i + 1].free && JoinStored(w, r, i)
    ensures Replacement(w, r, i, 2, [Chunk(r.chunks[i].size + r.chunks[i + 1].size + HEADER, true)])
  {
    var rs := [Chunk(r.chunks[i].size + r.chunks[i + 1].size + HEADER, true)];
    var q := r.(chunks := Splice(r.chunks, i, 2, rs));
    SpanOf3(r.chunks[i..i + 2]);
    assert Offset(rs, 1) == HEADER + rs[0].size;
    SplicedLinks(r, q, i, 2, rs);
    TwoLinked(w, q, i);
  }

  lemma {:induction false} JoinReady(m: seq<byte>, r: Arena, i: nat)
    requires Represents(m, r) && i + 1 < |r.chunks|
    ensures HeaderIn(m, HeaderAt(r, i)) == Linked(r, i) && HeaderIn(m, HeaderAt(r, i + 1)) == Linked(r, i + 1)
    ensures HeaderAt(r, i + 1) == PayloadAt(r, i) + r.chunks[i].size
    ensures PayloadAt(r, i + 1) + r.chunks[i + 1].size <= |m|
    ensures i + 2 < |r.chunks| ==>
      && HeaderIn(m, HeaderAt(r, i + 2)) == Linked(r, i + 2)
      && HeaderAt(r, i + 2) == PayloadAt(r, i + 1) + r.chunks[i + 1].size
      && PayloadAt(r, i + 2) <= |m|
  {
    HeaderInArena(r, i + 1);
    if i + 2 < |r.chunks| { HeaderInArena(r, i + 2); }
  }

  // Relinked for free chunks that are replaced by free chunks: no live byte
  // changes.
  lemma {:induction false} FreeRelinked(m: seq<byte>, w: seq<byte>, h: seq<Arena>, bs: seq<nat>, cs: seq<nat>, a: nat,
                                        i: nat, n: nat, rs: seq<Chunk>)
    returns (g: seq<Arena>)
    requires Backs(m, h, bs, cs) && a < |h| && Replacement(w, h[a], i, n, rs)
    requires SameOutside(m, w, HeaderAt(h[a], i), HeaderEnd(h[a], i + n))
    ensures g == h[a := h[a].(chunks := Splice(h[a].chunks, i, n, rs))]
    ensures Backs(w, g, bs, cs) && Live(g) == Live(h)
    ensures forall x :: x in Live(h) ==> SamePayload(m, w, x)
  {
    RegionSame(m, w, h, bs, cs, a, i, n);
    FreeSplice(h, a, i, n, rs);
    g := Relinked(m, w, h, bs, cs, a, i, n, rs);
  }

  // The heap after __split_block stored its headers.
  lemma {:induction false} Divided(m: seq<byte>, w: seq<byte>, h: seq<Arena>, bs: seq<nat>, cs: seq<nat>, a: nat,
                                   i: nat, n: nat)
    returns (g: seq<Arena>)
    requires Backs(m, h, bs, cs) && a < |h| && i < |h[a].chunks|
    requires h[a].chunks[i].free && HEADER + SPLIT_THRESHOLD <= h[a].chunks[i].size - n
    requires SameOutside(m, w, HeaderAt(h[a], i), HeaderEnd(h[a], i + 1))
    requires SplitStored(w, h[a], i, n)
    ensures g == h[a := h[a].(chunks := Splice(h[a].chunks, i, 1, Halves(h[a].chunks[i].size, n)))]
    ensures Backs(w, g, bs, cs) && Live(g) == Live(h)
    ensures forall x :: x in Live(h) ==> SamePayload(m, w, x)
  {
    var rs := SplitLinked(w, h[a], i, n);
    g := FreeRelinked(m, w, h, bs, cs, a, i, 1, rs);
  }

  // The heap after a merge step stored its headers.
  lemma {:induction false} Joined(m: seq<byte>, w: seq<byte>, h: seq<Arena>, bs: seq<nat>, cs: seq<nat>, a: nat, i: nat)
    returns (g: seq<Arena>)
    requires Backs(m, h, bs, cs) && a < |h| && i + 1 < |h[a].chunks|
    requires h[a].chunks[i].free && h[a].chunks[i + 1].free
    requires SameOutside(m, w, HeaderAt(h[a], i), HeaderEnd(h[a], i + 2))
    requires JoinStored(w, h[a], i)
    ensures g == h[a := h[a].(chunks := Join(h[a].chunks, i))]
    ensures Backs(w, g, bs, cs) && Live(g) == Live(h)
    ensures forall x :: x in Live(h) ==> SamePayload(m, w, x)
  {
    var rs := [Chunk(h[a].chunks[i].size + h[a].chunks[i + 1].size + HEADER, true)];
    JoinLinked(w, h[a], i);
    g := FreeRelinked(m, w, h, bs, cs, a, i, 2, rs);
  }

  // The heap after a free flag was stored.
  lemma {:induction false} Flagged(m: seq<byte>, w: seq<byte>, h: seq<Arena>, bs: seq<nat>, cs: seq<nat>, a: nat,
                                   i: nat, v: bool)
    returns (g: seq<Arena>)
    requires Backs(m, h, bs, cs) && a < |h| && i < |h[a].chunks|
    requires SameOutside(m, w, HeaderAt(h[a], i), HeaderAt(h[a], i) + HEADER)
    requires HeaderIn(w, HeaderAt(h[a], i)) == Linked(h[a], i).(free := v)
    ensures var c := h[a].chunks[i].(free := v);
      g == h[a := h[a].(chunks := h[a].chunks[i := c])]
    ensures Backs(w, g, bs, cs) && HeaderAt(g[a], i) == HeaderAt(h[a], i)
    ensures forall x :: x in Live(h) ==> SamePayload(m, w, x)
  {
    var rs := [h[a].chunks[i].(free := v)];
    FlagLinked(m, w, h[a], i, v);
    HeaderEnds(h[a], i);
    RegionSame(m, w, h, bs, cs, a, i, 0);
    g := Relinked(m, w, h, bs, cs, a, i, 1, rs);
    FlagSplice(h[a], i, rs);
  }

  lemma {:induction false} HeaderEnds(r: Arena, i: nat)
    requires Tiles(r.chunks) && i < |r.chunks|
    ensures HeaderEnd(r, i) == HeaderAt(r, i) + HEADER <= HeaderEnd(r, i + 1)
  {
    HeaderOrder(r, i, i + 1);
  }

  lemma {:induction false} FlagSplice(r: Arena, i: nat, rs: seq<Chunk>)
    requires i < |r.chunks| && |rs| == 1 && rs[0].size == r.chunks[i].size
    ensures Splice(r.chunks, i, 1, rs) == r.chunks[i := rs[0]]
    ensures HeaderAt(r.(chunks := r.chunks[i := rs[0]]), i) == HeaderAt(r, i)
  {
    assert Splice(r.chunks, i, 1, rs) == r.chunks[i := rs[0]];
    OneSpan(r.chunks, i);
    OneSpan(rs, 0);
    assert rs[0..1] == rs;
    SpliceOffsets(r.chunks, i, 1, rs);
  }

  lemma {:induction false} PrevHeader(m: seq<byte>, r: Arena, i: nat)
    requires Represents(m, r) && 0 < i < |r.chunks|
    ensures Linked(r, i).prev == HeaderAt(r, i - 1) > 0
    ensures HeaderIn(m, HeaderAt(r, i - 1)) == Linked(r, i - 1)
  {
  }

  lemma {:induction false} HeadOfJoin(r: Arena, i: nat)
    requires i + 1 < |r.chunks| && r.chunks[i].free
    ensures var q := r.(chunks := Join(r.chunks, i));
      i < |q.chunks| && q.chunks[i].free && HeaderAt(q, i) == HeaderAt(r, i)
  {
    var q := r.(chunks := Join(r.chunks, i));
    assert r.chunks == r.chunks[..i] + r.chunks[i..];
    assert q.chunks == r.chunks[..i] + q.chunks[i..];
    OffsetPrefix(r.chunks[..i], r.chunks[i..], i);
    OffsetPrefix(r.chunks[..i], q.chunks[i..], i);
  }

  // Rearranging free chunks changes no live payload.
  lemma {:induction false} FreeSplice(h: seq<Arena>, a: nat, i: nat, n: nat, rs: seq<Chunk>)
    requires a < |h| && i + n <= |h[a].chunks|
    requires forall j :: i <= j < i + n ==> h[a].chunks[j].free
    requires forall j :: 0 <= j < |rs| ==> rs[j].free
    requires Offset(rs, |rs|) == Offset(h[a].chunks[i..i + n], n)
    ensures Live(h[a := h[a].(chunks := Splice(h[a].chunks, i, n, rs))]) == Live(h)
  {
    FreeSpliceIn(h[a], i, n, rs);
    SameLive(h, a, h[a].(chunks := Splice(h[a].chunks, i, n, rs)));
  }

  lemma {:induction false} FreeSpliceIn(r: Arena, i: nat, n: nat, rs: seq<Chunk>)
    requires i + n <= |r.chunks|
    requires forall j :: i <= j < i + n ==> r.chunks[j].free
    requires forall j :: 0 <= j < |rs| ==> rs[j].free
    requires Offset(rs, |rs|) == Offset(r.chunks[i..i + n], n)
    ensures LiveIn(r.(chunks := Splice(r.chunks, i, n, rs))) == LiveIn(r)
  {
    var cs, mid := r.chunks, r.chunks[i..i + n];
    Around(cs, i, i + n);
    assert forall j :: 0 <= j < n ==> mid[j] == cs[i + j];
    FreeParts(cs[..i], mid, rs, cs[i + n..], r.base);
  }

  lemma {:induction false} FreeParts(xs: seq<Chunk>, mid: seq<Chunk>, rs: seq<Chunk>, ys: seq<Chunk>, at: nat)
    requires forall j :: 0 <= j < |mid| ==> mid[j].free
    requires forall j :: 0 <= j < |rs| ==> rs[j].free
    requires Offset(rs, |rs|) == Offset(mid, |mid|)
    ensures LiveFrom(xs + rs + ys, at) == LiveFrom(xs + mid + ys, at)
  {
    AllFreeNone(mid, at + Offset(xs, |xs|));
    AllFreeNone(rs, at + Offset(xs, |xs|));
    var rest := Replaced(xs, mid, rs, ys, at);
  }

  lemma {:induction false} SameLive(h: seq<Arena>, a: nat, q: Arena)
    requires a < |h| && LiveIn(q) == LiveIn(h[a])
    ensures Live(h[a := q]) == Live(h)
  {
    var g := h[a := q];
    assert forall b :: 0 <= b < |h| ==> LiveIn(g[b]) == LiveIn(h[b]);
  }

  lemma {:induction false} AllFreeNone(cs: seq<Chunk>, at: nat)
    requires forall j :: 0 <= j < |cs| ==> cs[j].free
    ensures LiveFrom(cs, at) == {}
  {
    forall x | x in LiveFrom(cs, at) ensures false { LiveFromBounds(cs, at, x); }
  }

  lemma {:induction false} Freed(h: seq<Arena>, a: nat, i: nat, p: nat, g: seq<Arena>)
    requires ValidHeap(h) && Holds(h, a, i, p)
    requires var cs := h[a].chunks;
      var (ds, k) := MergePrev(cs[i := cs[i].(free := true)], i);
      g == h[a := h[a].(chunks := MergeNext(ds, k))]
    ensures ValidHeap(g) && Step(h, Free(p), g) && Live(g) <= Live(h)
  {
    FreeKeeps(h, a, i);
    assert g == ReleaseIn(h, a, i);
  }

  // A fresh arena serves every request that fits in it.
  lemma {:induction false} GrownFit(h: seq<Arena>, base: nat, n: nat)
    requires FirstArena(h, n, 0) == |h|
    ensures FirstArena(Grown(h, base), n, 0) == if n <= WHOLE.size then |h| else |h| + 1
  {
    var g := Grown(h, base);
    assert FirstFit([WHOLE], n, 0) == if n <= WHOLE.size then 0 else 1;
    var k := FirstArena(g, n, 0);
    forall b | 0 <= b < |h| ensures FirstFit(g[b].chunks, n, 0) == |g[b].chunks| {
      assert g[b] == h[b];
    }
    assert g[|h|].chunks == [WHOLE];
  }

  // Splitting and then marking the first half is what Take describes.
  lemma {:induction false} MarkTaken(h: seq<Arena>, n: nat)
    requires FirstArena(h, n, 0) < |h|
    ensures var a := FirstArena(h, n, 0);
      var i := FirstFit(h[a].chunks, n, 0);
      var cs := Splice(h[a].chunks, i, 1, Halves(h[a].chunks[i].size, n));
      && i < |cs|
      && Take(h[a].chunks, i, n) == cs[i := cs[i].(free := false)]
      && HeaderAt(h[a].(chunks := cs), i) == HeaderAt(h[a], i)
  {
    var a := FirstArena(h, n, 0);
    var i := FirstFit(h[a].chunks, n, 0);
    MarkFirst(h[a].chunks, i, n);
  }

  lemma {:induction false} MarkFirst(cs: seq<Chunk>, i: nat, n: nat)
    requires i < |cs| && Serves(cs[i], n)
    ensures var ds := Splice(cs, i, 1, Halves(cs[i].size, n));
      i < |ds| && Take(cs, i, n) == ds[i := ds[i].(free := false)] && Offset(ds, i) == Offset(cs, i)
  {
    SpliceBefore(cs, i, 1, Halves(cs[i].size, n), i);
  }
}
