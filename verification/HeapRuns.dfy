// What src/mm/heap.c guarantees over whole runs of kmalloc and kfree.
module HeapRuns {
  import opened ChunkLists

  datatype Event = Malloc(n: nat, base: nat, ptr: nat) | Free(ptr: nat)

  // Chunk i of arena a is the allocation at p.
  predicate Holds(h: seq<Arena>, a: nat, i: nat, p: nat) {
    a < |h| && i < |h[a].chunks| && !h[a].chunks[i].free && PayloadAt(h[a], i) == p
  }

  ghost predicate Step(h: seq<Arena>, e: Event, g: seq<Arena>) {
    match e
    case Malloc(n, base, p) =>
      && n > 0
      && (FirstArena(h, n, 0) == |h| ==> forall a :: 0 <= a < |h| ==> Separate(h[a].base, base))
      && FirstArena(Ready(h, n, base), n, 0) < |Ready(h, n, base)|
      && (g, p) == TakeFrom(Ready(h, n, base), n)
    case Free(p) =>
      exists a: nat, i: nat :: Holds(h, a, i, p) && g == ReleaseIn(h, a, i)
  }

  // hs are the states of a run from the single arena that mm_heap_init sets up.
  ghost predicate Run(hs: seq<seq<Arena>>, es: seq<Event>) {
    && |hs| == |es| + 1
    && |hs[0]| == 1 && hs[0][0].chunks == [WHOLE]
    && forall k :: 0 <= k < |es| ==> Step(hs[k], es[k], hs[k + 1])
  }

  // Requests that were granted and not yet given back, by address.
  function Outstanding(es: seq<Event>): map<nat, nat> {
    if es == [] then map[] else
      var m := Outstanding(es[..|es| - 1]);
      match es[|es| - 1]
      case Malloc(n, _, p) => m[p := n]
      case Free(p) => m - {p}
  }

  // The live chunks are the outstanding requests, each rounded up by less
  // than a header and the split threshold.
  ghost predicate Accounts(h: seq<Arena>, m: map<nat, nat>) {
    Accounted(Live(h), m)
  }

  ghost predicate Accounted(live: set<Extent>, m: map<nat, nat>) {
    && (forall x :: x in live ==> x.at in m && m[x.at] <= x.size < m[x.at] + HEADER + SPLIT_THRESHOLD)
    && (forall p :: p in m ==> exists x :: x in live && x.at == p)
  }

  lemma {:induction false} OneMore(live: set<Extent>, m: map<nat, nat>, x: Extent, n: nat)
    requires Accounted(live, m) && n <= x.size < n + HEADER + SPLIT_THRESHOLD
    requires forall y :: y in live ==> y.at != x.at
    ensures Accounted(live + {x}, m[x.at := n])
  {
    var all := m[x.at := n];
    forall p | p in all ensures exists y :: y in live + {x} && y.at == p {
      if p == x.at { assert x in live + {x}; }
    }
  }

  lemma {:induction false} OneLess(live: set<Extent>, m: map<nat, nat>, x: Extent)
    requires Accounted(live, m)
    requires forall y :: y in live - {x} ==> y.at != x.at
    ensures Accounted(live - {x}, m - {x.at})
  {
    forall p | p in m - {x.at} ensures exists y :: y in live - {x} && y.at == p {
      var y :| y in live && y.at == p;
      assert y in live - {x};
    }
  }

  lemma {:induction false} MallocAccounts(h: seq<Arena>, n: nat, base: nat, p: nat, g: seq<Arena>, m: map<nat, nat>)
    requires ValidHeap(h) && Accounts(h, m) && Step(h, Malloc(n, base, p), g)
    ensures ValidHeap(g) && Accounts(g, m[p := n])
  {
    if FirstArena(h, n, 0) == |h| { GrownKeeps(h, base); }
    var s := MallocKeeps(Ready(h, n, base), n);
    OneMore(Live(h), m, Extent(p, s), n);
  }

  lemma {:induction false} FreeAccounts(h: seq<Arena>, p: nat, g: seq<Arena>, m: map<nat, nat>)
    requires ValidHeap(h) && Accounts(h, m) && Step(h, Free(p), g)
    ensures ValidHeap(g) && Accounts(g, m - {p})
  {
    var a: nat, i: nat :| Holds(h, a, i, p) && g == ReleaseIn(h, a, i);
    FreeKeeps(h, a, i);
    var x0 := Extent(p, h[a].chunks[i].size);
    forall x | x in Live(h) - {x0} ensures x.at != p { LiveDisjoint(h, x, x0); }
    OneLess(Live(h), m, x0);
  }

  // Main result: in every reachable state the chunk lists tile their arenas
  // with no two free neighbours, and the live chunks are exactly the
  // outstanding requests.
  lemma {:induction false} ReachableHeaps(hs: seq<seq<Arena>>, es: seq<Event>)
    requires Run(hs, es)
    ensures ValidHeap(hs[|es|]) && Accounts(hs[|es|], Outstanding(es))
  {
    if es == [] {
      LiveOne(WHOLE, hs[0][0].base);
      assert Live(hs[0]) == LiveIn(hs[0][0]);
    } else {
      var k := |es| - 1;
      ReachableHeaps(hs[..|es|], es[..k]);
      var m := Outstanding(es[..k]);
      match es[k]
      case Malloc(n, base, p) => MallocAccounts(hs[k], n, base, p, hs[k + 1], m);
      case Free(p) => FreeAccounts(hs[k], p, hs[k + 1], m);
    }
  }

  // Outstanding allocations never share a byte.
  lemma {:induction false} OutstandingDisjoint(hs: seq<seq<Arena>>, es: seq<Event>, p: nat, q: nat)
    requires Run(hs, es) && p in Outstanding(es) && q in Outstanding(es) && p != q
    ensures var m := Outstanding(es); p + m[p] + HEADER <= q || q + m[q] + HEADER <= p
  {
    ReachableHeaps(hs, es);
    var h := hs[|es|];
    var x :| x in Live(h) && x.at == p;
    var y :| y in Live(h) && y.at == q;
    LiveDisjoint(h, x, y);
  }

  // When everything was given back, each arena is one free chunk again.
  lemma {:induction false} AllReturned(hs: seq<seq<Arena>>, es: seq<Event>)
    requires Run(hs, es) && Outstanding(es) == map[]
    ensures forall a :: 0 <= a < |hs[|es|]| ==> hs[|es|][a].chunks == [WHOLE]
  {
    ReachableHeaps(hs, es);
    var h := hs[|es|];
    forall a | 0 <= a < |h| ensures h[a].chunks == [WHOLE] {
      forall i | 0 <= i < |h[a].chunks| ensures h[a].chunks[i].free {
        if !h[a].chunks[i].free { LiveMember(h[a].chunks, h[a].base, i); }
        assert LiveIn(h[a]) <= Live(h);
      }
      AllFreeIsWhole(h[a].chunks);
    }
  }

  lemma {:induction false} HoldsUnique(h: seq<Arena>, a: nat, i: nat, b: nat, j: nat, p: nat)
    requires ValidHeap(h) && Holds(h, a, i, p) && Holds(h, b, j, p)
    ensures a == b && i == j
  {
    OffsetOrder(h[a].chunks, i, |h[a].chunks|);
    OffsetOrder(h[b].chunks, j, |h[b].chunks|);
    if a != b {
      Apart(h, a, b);
    } else if i != j {
      if i < j { OffsetOrder(h[a].chunks, i, j); } else { OffsetOrder(h[a].chunks, j, i); }
    }
  }

  // kfree(kmalloc(n)) gives back the very same chunk lists, up to the new
  // arena when one was needed.
  lemma {:induction false} FreeUndoesMalloc(h: seq<Arena>, n: nat, base: nat, p: nat, g: seq<Arena>, f: seq<Arena>)
    requires ValidHeap(h) && Step(h, Malloc(n, base, p), g) && Step(g, Free(p), f)
    ensures f == if FirstArena(h, n, 0) < |h| then h else Grown(h, base)
  {
    var r := Ready(h, n, base);
    if FirstArena(h, n, 0) == |h| { GrownKeeps(h, base); }
    var s := MallocKeeps(r, n);
    var a := FirstArena(r, n, 0);
    var i := FirstFit(r[a].chunks, n, 0);
    TakeAddress(r[a], i, n);
    var b: nat, j: nat :| Holds(g, b, j, p) && f == ReleaseIn(g, b, j);
    HoldsUnique(g, a, i, b, j, p);
    ReleaseUndoesTake(r[a].chunks, i, n);
    PutBack(r, a, g[a]);
  }

  lemma {:induction false} PutBack(h: seq<Arena>, a: nat, r: Arena)
    requires a < |h| && r.base == h[a].base
    ensures var g := h[a := r];
      g[a := g[a].(chunks := h[a].chunks)] == h
  {
  }

  lemma {:induction false} TakeAddress(r: Arena, i: nat, n: nat)
    requires i < |r.chunks| && Serves(r.chunks[i], n)
    ensures var q := r.(chunks := Take(r.chunks, i, n));
      i < |q.chunks| && !q.chunks[i].free && PayloadAt(q, i) == PayloadAt(r, i)
  {
    var xs, rs, ys := r.chunks[..i], Cut(r.chunks[i].size, n), r.chunks[i + 1..];
    assert r.chunks == xs + r.chunks[i..] && xs + rs + ys == xs + (rs + ys);
    OffsetPrefix(xs, r.chunks[i..], i);
    OffsetPrefix(xs, rs + ys, i);
  }
}
