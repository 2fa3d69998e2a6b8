// The page frame allocator of src/mm/page.c seen as values: for every order the
// list of free blocks, and for every page its entry of the page array.
// Addresses are counted in pages.
module FrameLists {
  import opened Arithmetic
  import opened Common

  const MAX_ORDER: nat := 16   // BUDDY_MAX_ORDER

  datatype PageType = Invalid | Free | InUse
  datatype Page = Page(kind: PageType, order: nat, first: bool)

  type FreeLists = f: seq<seq<nat>> | |f| == MAX_ORDER witness seq(MAX_ORDER, _ => [])

  // Page q is one of the Pow2(o) pages of the block of order o at page p.
  predicate Within(p: nat, o: nat, q: nat) {
    p <= q < p + Pow2(o)
  }

  // ----- What the operations do to the free lists

  // Smallest order from o on with a free block, MAX_ORDER when there is none.
  function FirstOrder(f: FreeLists, o: nat): (i: nat)
    requires o <= MAX_ORDER
    ensures o <= i <= MAX_ORDER
    ensures i < MAX_ORDER ==> f[i] != []
    ensures forall j :: o <= j < i ==> f[j] == []
    decreases MAX_ORDER - o
  {
    if o == MAX_ORDER || f[o] != [] then o else FirstOrder(f, o + 1)
  }

  function Push(f: FreeLists, o: nat, p: nat): FreeLists
    requires o < MAX_ORDER
  {
    f[o := [p] + f[o]]
  }

  function Pop(f: FreeLists, o: nat): FreeLists
    requires o < MAX_ORDER && f[o] != []
  {
    f[o := f[o][1..]]
  }

  // Splits the block of order i at p until its last piece has order o; all
  // other pieces go to the free lists.
  function Split(f: FreeLists, p: nat, i: nat, o: nat): (FreeLists, nat)
    requires o <= i < MAX_ORDER
    decreases i
  {
    if i == o then (f, p) else Split(Push(f, i - 1, p), p + Pow2(i - 1), i - 1, o)
  }

  function Alloc(f: FreeLists, o: nat): Option<(FreeLists, nat)>
    requires o <= MAX_ORDER
  {
    var i := FirstOrder(f, o);
    if i == MAX_ORDER then None else Some(Split(Pop(f, i), f[i][0], i, o))
  }

  // The page array after all pages of a block were marked.
  function Mark(pages: seq<Page>, p: nat, o: nat, kind: PageType): (r: seq<Page>)
    requires p + Pow2(o) <= |pages|
    ensures |r| == |pages|
    ensures forall q :: 0 <= q < |pages| ==>
      r[q] == if Within(p, o, q) then Page(kind, o, q == p) else pages[q]
  {
    seq(|pages|, q requires 0 <= q < |pages| => if Within(p, o, q) then Page(kind, o, q == p) else pages[q])
  }

  // ----- How often a page lies in a free block

  function In(p: nat, o: nat, q: nat): nat {
    if Within(p, o, q) then 1 else 0
  }

  function CountList(l: seq<nat>, o: nat, q: nat): nat {
    if l == [] then 0 else In(l[0], o, q) + CountList(l[1..], o, q)
  }

  // Over the orders below n.
  function CountBelow(f: FreeLists, n: nat, q: nat): nat
    requires n <= MAX_ORDER
  {
    if n == 0 then 0 else CountBelow(f, n - 1, q) + CountList(f[n - 1], n - 1, q)
  }

  function Count(f: FreeLists, q: nat): nat {
    CountBelow(f, MAX_ORDER, q)
  }

  lemma {:induction false} CountOneList(f: FreeLists, g: FreeLists, o: nat, n: nat, q: nat)
    requires o < MAX_ORDER && n <= MAX_ORDER
    requires forall j :: 0 <= j < MAX_ORDER && j != o ==> g[j] == f[j]
    ensures CountBelow(g, n, q) - CountBelow(f, n, q) ==
            if o < n then CountList(g[o], o, q) - CountList(f[o], o, q) else 0
  {
    if n > 0 { CountOneList(f, g, o, n - 1, q); }
  }

  lemma {:induction false} CountPush(f: FreeLists, o: nat, p: nat, q: nat)
    requires o < MAX_ORDER
    ensures Count(Push(f, o, p), q) == Count(f, q) + In(p, o, q)
  {
    CountOneList(f, Push(f, o, p), o, MAX_ORDER, q);
    assert ([p] + f[o])[1..] == f[o];
  }

  lemma {:induction false} CountPop(f: FreeLists, o: nat, q: nat)
    requires o < MAX_ORDER && f[o] != []
    ensures Count(Pop(f, o), q) + In(f[o][0], o, q) == Count(f, q)
  {
    CountOneList(f, Pop(f, o), o, MAX_ORDER, q);
  }

  // The pieces of a split and its result tile the block that was split.
  lemma {:induction false} CountSplit(f: FreeLists, p: nat, i: nat, o: nat, q: nat)
    requires o <= i < MAX_ORDER
    ensures var (g, r) := Split(f, p, i, o); Count(g, q) + In(r, o, q) == Count(f, q) + In(p, i, q)
    decreases i
  {
    if i > o {
      CountPush(f, i - 1, p, q);
      CountSplit(Push(f, i - 1, p), p + Pow2(i - 1), i - 1, o, q);
    }
  }

  lemma {:induction false} CountAlloc(f: FreeLists, o: nat, q: nat)
    requires o <= MAX_ORDER && Alloc(f, o).Some?
    ensures var (g, r) := Alloc(f, o).value; Count(g, q) + In(r, o, q) == Count(f, q)
  {
    var i := FirstOrder(f, o);
    CountPop(f, i, q);
    CountSplit(Pop(f, i), f[i][0], i, o, q);
  }

  // ----- Exact shape of an allocation

  // __alloc_mem fails exactly when every order from o up is empty.
  lemma {:induction false} AllocFails(f: FreeLists, o: nat)
    requires o <= MAX_ORDER
    ensures Alloc(f, o) == None <==> forall j :: o <= j < MAX_ORDER ==> f[j] == []
  {
  }

  // A block that was put back is the next of its order to be allocated.
  lemma {:induction false} PushThenAlloc(f: FreeLists, o: nat, p: nat)
    requires o < MAX_ORDER
    ensures Alloc(Push(f, o, p), o) == Some((f, p))
  {
    var g := Push(f, o, p);
    assert FirstOrder(g, o) == o && Pop(g, o) == f;
  }

  // Otherwise it takes the first block of the smallest non-empty order i, gives
  // back one piece for each order from o to i - 1, and returns the last piece.
  lemma {:induction false} AllocShape(f: FreeLists, o: nat)
    requires o <= MAX_ORDER && Alloc(f, o).Some?
    ensures var i := FirstOrder(f, o);
      var (g, r) := Alloc(f, o).value;
      && r + Pow2(o) == f[i][0] + Pow2(i)
      && (forall j :: 0 <= j < MAX_ORDER && (j < o || j > i) ==> g[j] == f[j])
      && (forall j :: o <= j < i ==> g[j] == [f[i][0] + Pow2(i) - 2 * Pow2(j)])
      && g[i] == f[i][1..]
  {
    var i := FirstOrder(f, o);
    SplitShape(Pop(f, i), f[i][0], i, o);
  }

  lemma {:induction false} SplitShape(f: FreeLists, p: nat, i: nat, o: nat)
    requires o <= i < MAX_ORDER
    ensures var (g, r) := Split(f, p, i, o);
      && r + Pow2(o) == p + Pow2(i)
      && (forall j :: 0 <= j < MAX_ORDER && (j < o || j >= i) ==> g[j] == f[j])
      && (forall j :: o <= j < i ==> g[j] == [p + Pow2(i) - 2 * Pow2(j)] + f[j])
    decreases i
  {
    if i > o { SplitShape(Push(f, i - 1, p), p + Pow2(i - 1), i - 1, o); }
  }

  // ----- Counting and positions

  lemma {:induction false} CountListTwo(l: seq<nat>, o: nat, i: nat, j: nat, q: nat)
    requires i <= j < |l|
    ensures CountList(l, o, q) >= if i == j then In(l[i], o, q) else In(l[i], o, q) + In(l[j], o, q)
  {
    if i > 0 {
      CountListTwo(l[1..], o, i - 1, j - 1, q);
    } else if j > 0 {
      CountListTwo(l[1..], o, j - 1, j - 1, q);
    }
  }

  lemma {:induction false} CountBelowTwo(f: FreeLists, n: nat, a: nat, b: nat, q: nat)
    requires a <= b < n <= MAX_ORDER
    ensures CountBelow(f, n, q) >=
            if a == b then CountList(f[a], a, q) else CountList(f[a], a, q) + CountList(f[b], b, q)
  {
    if b < n - 1 {
      CountBelowTwo(f, n - 1, a, b, q);
    } else if a < b {
      CountBelowTwo(f, n - 1, a, a, q);
    }
  }

  // Page q lies in entry i of the list of order o.
  predicate At(f: FreeLists, o: nat, i: nat, q: nat) {
    o < MAX_ORDER && i < |f[o]| && Within(f[o][i], o, q)
  }

  // A page counted once lies in one free block only.
  lemma {:induction false} CountedOnce(f: FreeLists, o: nat, i: nat, b: nat, j: nat, q: nat)
    requires At(f, o, i, q) && At(f, b, j, q) && Count(f, q) <= 1
    ensures o == b && i == j
  {
    CountBelowTwo(f, MAX_ORDER, if o <= b then o else b, if o <= b then b else o, q);
    CountListTwo(f[o], o, i, i, q);
    CountListTwo(f[b], b, j, j, q);
    if o == b { CountListTwo(f[o], o, if i <= j then i else j, if i <= j then j else i, q); }
  }

  lemma {:induction false} ListPosition(l: seq<nat>, o: nat, q: nat) returns (i: nat)
    requires CountList(l, o, q) > 0
    ensures i < |l| && Within(l[i], o, q)
  {
    if Within(l[0], o, q) {
      i := 0;
    } else {
      i := ListPosition(l[1..], o, q);
      i := i + 1;
    }
  }

  lemma {:induction false} Position(f: FreeLists, n: nat, q: nat) returns (o: nat, i: nat)
    requires n <= MAX_ORDER && CountBelow(f, n, q) > 0
    ensures At(f, o, i, q)
  {
    if CountList(f[n - 1], n - 1, q) > 0 {
      o := n - 1;
      i := ListPosition(f[o], o, q);
    } else {
      o, i := Position(f, n - 1, q);
    }
  }

  lemma {:induction false} CountPositive(f: FreeLists, q: nat)
    ensures Count(f, q) > 0 <==> exists o: nat, i: nat :: At(f, o, i, q)
  {
    if Count(f, q) > 0 { var o, i := Position(f, MAX_ORDER, q); }
    forall o: nat, i: nat | At(f, o, i, q) ensures Count(f, q) > 0 {
      CountBelowTwo(f, MAX_ORDER, o, o, q);
      CountListTwo(f[o], o, i, i, q);
    }
  }
}
