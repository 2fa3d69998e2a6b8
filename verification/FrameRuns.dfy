// What src/mm/page.c guarantees over whole runs of mm_block_alloc and
// mm_block_free.
module FrameRuns {
  import opened FrameLists
  import opened Arithmetic
  import opened Common

  datatype State = State(free: FreeLists, pages: seq<Page>)
  datatype Event = Allocated(order: nat, start: nat) | Freed(start: nat, order: nat)

  // Orders of the outstanding blocks, by first page.
  type Blocks = map<nat, nat>

  predicate CoversAt(out: Blocks, p: nat, q: nat) {
    p in out && Within(p, out[p], q)
  }

  predicate Covered(out: Blocks, q: nat) {
    exists p :: p in out && CoversAt(out, p, q)
  }

  // Every managed page is in exactly one free block or outstanding block, and
  // its entry in the page array says which; for outstanding blocks the entries
  // also give order and boundaries.
  ghost predicate Inv(managed: set<nat>, s: State, out: Blocks) {
    && (forall q :: q in managed ==> q < |s.pages|)
    && (forall q: nat :: Count(s.free, q) == if q in managed && !Covered(out, q) then 1 else 0)
    && (forall p, q: nat :: p in out && CoversAt(out, p, q) ==> q in managed && s.pages[q] == Page(InUse, out[p], q == p))
    && (forall q :: q in managed && !Covered(out, q) ==> s.pages[q].kind == Free)
  }

  ghost predicate Step(s: State, e: Event, t: State) {
    match e
    case Allocated(o, p) =>
      && o <= MAX_ORDER
      && Alloc(s.free, o) == Some((t.free, p))
      && p + Pow2(o) <= |s.pages|
      && t.pages == Mark(s.pages, p, o, InUse)
    case Freed(p, o) =>
      && o < MAX_ORDER && p + Pow2(o) <= |s.pages|
      && t == State(Push(s.free, o, p), Mark(s.pages, p, o, Free))
  }

  function Outstanding(start: Blocks, es: seq<Event>): Blocks {
    if es == [] then start else
      var m := Outstanding(start, es[..|es| - 1]);
      match es[|es| - 1]
      case Allocated(o, p) => m[p := o]
      case Freed(p, _) => m - {p}
  }

  // A run that only gives back blocks it holds.
  ghost predicate Run(ss: seq<State>, out: Blocks, es: seq<Event>) {
    && |ss| == |es| + 1
    && (forall k :: 0 <= k < |es| ==> Step(ss[k], es[k], ss[k + 1]))
    && (forall k :: 0 <= k < |es| && es[k].Freed? ==>
          var m := Outstanding(out, es[..k]); es[k].start in m && m[es[k].start] == es[k].order)
  }

  // A block handed out by Alloc consists of managed pages that nobody holds.
  lemma {:induction false} AllocIsFree(managed: set<nat>, s: State, out: Blocks, o: nat, q: nat)
    requires Inv(managed, s, out) && o <= MAX_ORDER && Alloc(s.free, o).Some?
    requires Within(Alloc(s.free, o).value.1, o, q)
    ensures q in managed && !Covered(out, q)
  {
    CountAlloc(s.free, o, q);
  }

  lemma {:induction false} AllocKeeps(managed: set<nat>, s: State, out: Blocks, o: nat, p: nat, t: State)
    requires Inv(managed, s, out) && Step(s, Allocated(o, p), t)
    ensures Inv(managed, t, out[p := o]) && p !in out
  {
    var now := out[p := o];
    assert Within(p, o, p);
    AllocIsFree(managed, s, out, o, p);
    assert p in out ==> CoversAt(out, p, p);
    forall q: nat ensures Covered(now, q) <==> Covered(out, q) || Within(p, o, q) {
      if Covered(out, q) {
        var x :| x in out && CoversAt(out, x, q);
        assert CoversAt(now, x, q);
      }
      if Within(p, o, q) { assert CoversAt(now, p, q); }
      if Covered(now, q) {
        var x :| x in now && CoversAt(now, x, q);
        assert x != p ==> CoversAt(out, x, q);
      }
    }
    forall q: nat ensures Count(t.free, q) == if q in managed && !Covered(now, q) then 1 else 0 {
      CountAlloc(s.free, o, q);
    }
    forall x, q: nat | x in now && CoversAt(now, x, q)
      ensures q in managed && t.pages[q] == Page(InUse, now[x], q == x)
    {
      if Within(p, o, q) { AllocIsFree(managed, s, out, o, q); }
      assert x != p ==> CoversAt(out, x, q);
    }
  }

  // Outstanding blocks share no page.
  lemma {:induction false} OutDisjoint(managed: set<nat>, s: State, out: Blocks, x: nat, y: nat, q: nat)
    requires Inv(managed, s, out) && x in out && y in out
    requires CoversAt(out, x, q) && CoversAt(out, y, q)
    ensures x == y
  {
    var k := if x <= y then y else x;
    assert CoversAt(out, x, k) && CoversAt(out, y, k);
    assert s.pages[k] == Page(InUse, out[x], k == x) && s.pages[k] == Page(InUse, out[y], k == y);
  }

  lemma {:induction false} FreeKeeps(managed: set<nat>, s: State, out: Blocks, p: nat, o: nat, t: State)
    requires Inv(managed, s, out) && Step(s, Freed(p, o), t)
    requires p in out && out[p] == o
    ensures Inv(managed, t, out - {p})
  {
    var now := out - {p};
    forall q: nat ensures Covered(now, q) <==> Covered(out, q) && !Within(p, o, q) {
      if Covered(out, q) {
        var x :| x in out && CoversAt(out, x, q);
        assert x != p ==> CoversAt(now, x, q);
      }
      if Covered(now, q) {
        var x :| x in now && CoversAt(now, x, q);
        assert CoversAt(out, x, q);
        if Within(p, o, q) { OutDisjoint(managed, s, out, x, p, q); }
      }
    }
    forall q: nat ensures Count(t.free, q) == if q in managed && !Covered(now, q) then 1 else 0 {
      CountPush(s.free, o, p, q);
      assert Within(p, o, q) ==> CoversAt(out, p, q);
    }
    forall x, q: nat | x in now && CoversAt(now, x, q)
      ensures q in managed && t.pages[q] == Page(InUse, now[x], q == x)
    {
      assert CoversAt(out, x, q) && Covered(now, q);
    }
  }

  // Main result: in every reachable state the managed pages are exactly the
  // pages of free and outstanding blocks, each in one block, and the page array
  // agrees.
  lemma {:induction false} ReachableStates(managed: set<nat>, ss: seq<State>, out: Blocks, es: seq<Event>)
    requires |ss| > 0 && Inv(managed, ss[0], out) && Run(ss, out, es)
    ensures Inv(managed, ss[|es|], Outstanding(out, es))
  {
    if es != [] {
      var k := |es| - 1;
      assert forall j :: 0 <= j < k ==> es[..k][..j] == es[..j];
      ReachableStates(managed, ss[..|es|], out, es[..k]);
      var m := Outstanding(out, es[..k]);
      match es[k]
      case Allocated(o, p) => AllocKeeps(managed, ss[k], m, o, p, ss[k + 1]);
      case Freed(p, o) => FreeKeeps(managed, ss[k], m, p, o, ss[k + 1]);
    }
  }

  // The same for single blocks: two free blocks never overlap, a free block
  // and an outstanding one never overlap, and every managed page is in one.
  lemma {:induction false} NoOverlap(managed: set<nat>, s: State, out: Blocks, q: nat)
    requires Inv(managed, s, out)
    ensures forall o: nat, i: nat, b: nat, j: nat :: At(s.free, o, i, q) && At(s.free, b, j, q) ==> o == b && i == j
    ensures forall o: nat, i: nat :: At(s.free, o, i, q) ==> !Covered(out, q)
    ensures q in managed <==> Covered(out, q) || exists o: nat, i: nat :: At(s.free, o, i, q)
  {
    CountPositive(s.free, q);
    forall o: nat, i: nat, b: nat, j: nat | At(s.free, o, i, q) && At(s.free, b, j, q) ensures o == b && i == j {
      CountedOnce(s.free, o, i, b, j, q);
    }
  }
}
