// The kernel's own tables: those that mm_native_init of src/arch/amd64/mmu.c
// sets up, and what stays true of them. All directories share one PDPT, which
// the boot directory has in two slots.
module KernelTables {
  import opened Arithmetic
  import opened Common
  import opened PageTables

  // PML4_ATOEI(KVSTART) and PDPT_ATOEI(KVSTART)
  const KERNEL_PML4I: nat := 511
  const KERNEL_PDPTI: nat := 510

  // ----- The boot tables

  const TABLE_FLAGS: set<Flag> := {Present, ReadWrite}
  const LARGE_FLAGS: set<Flag> := {Present, ReadWrite, PageSize}

  // Frames of __pml4, __pdpt and __pd.
  datatype Boot = Boot(pml4: nat, pdpt: nat, pd: nat)
  {
    predicate Apart() {
      pml4 != pdpt && pml4 != pd && pml4 != pd + 1 && pdpt != pd && pdpt != pd + 1
    }
  }

  // Both halves of __pd: entry i maps the 2 MB at i * 2 MB.
  function BootPd(): (t: seq<Entry>)
    ensures |t| == 2 * ENTRIES && forall i :: 0 <= i < |t| ==> t[i] == Entry(i * ENTRIES, LARGE_FLAGS)
  {
    seq(2 * ENTRIES, i requires 0 <= i => Entry(i * ENTRIES, LARGE_FLAGS))
  }

  // __pdpt: the two halves of __pd, each at two indices.
  function BootPdpt(pd: nat): (t: seq<Entry>)
    ensures |t| == ENTRIES
  {
    seq(ENTRIES, i => if i == 0 || i == KERNEL_PDPTI then Entry(pd, TABLE_FLAGS)
                      else if i == 1 || i == KERNEL_PDPTI + 1 then Entry(pd + 1, TABLE_FLAGS)
                      else EMPTY)
  }

  function BootPml4(pdpt: nat): (t: seq<Entry>)
    ensures |t| == ENTRIES
  {
    seq(ENTRIES, i => if i == 0 || i == KERNEL_PML4I then Entry(pdpt, TABLE_FLAGS) else EMPTY)
  }

  function BootMemory(b: Boot): Memory {
    map[b.pml4 := BootPml4(b.pdpt), b.pdpt := BootPdpt(b.pd), b.pd := BootPd()[..ENTRIES], b.pd + 1 := BootPd()[ENTRIES..]]
  }

  function BootPlaces(b: Boot): map<nat, Place> {
    map[b.pml4 := Kernel(0), b.pdpt := Kernel(1), b.pd := Kernel(2), b.pd + 1 := Kernel(2)]
  }

  lemma {:induction false} BootTree(b: Boot)
    requires b.Apart()
    ensures Tree(BootMemory(b), BootPlaces(b))
  {
    var m, at := BootMemory(b), BootPlaces(b);
    forall t, i | t in m && 0 <= i < ENTRIES ensures Hangs(m, at, t, i) {}
  }

  // The boot directory maps the first 2 GB to themselves, and a second time at
  // the end of the address space.
  lemma {:induction false} BootMaps(b: Boot, v: nat)
    requires b.Apart() && v < 0x8000_0000
    ensures var m := BootMemory(b);
      var page := Map(Entry(v / 0x20_0000 * ENTRIES, LARGE_FLAGS), TABLE_FLAGS, 1);
      Walk(m, b.pml4, Path(v)) == page && Walk(m, b.pml4, Path(0xffff_ffff_8000_0000 + v)) == page
  {
    BootIndices(v);
    BootWalk(b, Path(v));
    BootWalk(b, Path(0xffff_ffff_8000_0000 + v));
  }

  // So after boot no page below 2 GB can be mapped in the boot directory.
  lemma {:induction false} BootLarge(b: Boot, v: nat)
    requires b.Apart() && v < 0x8000_0000
    ensures !Small(BootMemory(b), b.pml4, Path(v)) && !Small(BootMemory(b), b.pml4, Path(0xffff_ffff_8000_0000 + v))
  {
    BootMaps(b, v);
  }

  lemma {:induction false} BootIndices(v: nat)
    requires v < 0x8000_0000
    ensures var p, q := Path(v), Path(0xffff_ffff_8000_0000 + v);
      && p[0] == 0 && p[1] < 2 && p[1] * ENTRIES + p[2] == v / 0x20_0000
      && q[0] == KERNEL_PML4I && q[1] == KERNEL_PDPTI + p[1] && q[2] == p[2]
  {
    var k := v / 0x20_0000;
    assert v / 0x4000_0000 == k / 512 && k / 512 < 2 && k == k / 512 * 512 + k % 512;
    var w := 0xffff_ffff_8000_0000 + v;
    assert w / 0x20_0000 == 0x7ff_ffff_fc00 + k;
    assert w / 0x4000_0000 == 0x3_ffff_fffe + k / 512;
    assert w / 0x80_0000_0000 == 0x1ff_ffff;
  }

  lemma {:induction false} BootWalk(b: Boot, p: seq<nat>)
    requires b.Apart() && |p| == 4 && Indices(p)
    requires (p[0] == 0 && p[1] < 2) || (p[0] == KERNEL_PML4I && p[1] >= KERNEL_PDPTI)
    ensures var k := if p[1] < 2 then p[1] else p[1] - KERNEL_PDPTI;
      Walk(BootMemory(b), b.pml4, p) == Map(Entry((k * ENTRIES + p[2]) * ENTRIES, LARGE_FLAGS), TABLE_FLAGS, 1)
  {
    var m, q := BootMemory(b), p[1..];
    var r := q[1..];
    var k := if p[1] < 2 then p[1] else p[1] - KERNEL_PDPTI;
    assert q[0] == p[1] && r[0] == p[2] && |r| == 2;
    assert m[b.pml4][p[0]] == Entry(b.pdpt, TABLE_FLAGS) && m[b.pdpt][p[1]] == Entry(b.pd + k, TABLE_FLAGS);
    assert m[b.pd + k][p[2]] == BootPd()[k * ENTRIES + p[2]];
    assert Walk(m, b.pd + k, r) == Map(m[b.pd + k][p[2]], ALL_FLAGS, 1);
    assert ALL_FLAGS * TABLE_FLAGS == TABLE_FLAGS && TABLE_FLAGS * TABLE_FLAGS == TABLE_FLAGS;
  }

  // ----- What stays true of them

  // Slot i of directory s leads to the boot PDPT.
  predicate Enters(b: Boot, s: nat, i: nat) {
    i == KERNEL_PML4I || (s == b.pml4 && i == 0)
  }

  // All pages that a table maps are 2 MB pages.
  predicate LargeOnly(m: Memory, t: nat) {
    t in m && forall i :: 0 <= i < |m[t]| ==> {Present, PageSize} <= m[t][i].flags
  }

  // Only the PDPT and the page directories of the kernel hang in more than one
  // slot.
  ghost predicate OneLink(m: Memory, at: map<nat, Place>, b: Boot) {
    forall x, j, y, k, f {:trigger Leads(m, at, x, j, f), Leads(m, at, y, k, f)} ::
      Leads(m, at, x, j, f) && Leads(m, at, y, k, f) && f !in {b.pdpt, b.pd, b.pd + 1} ==> x == y && j == k
  }

  ghost predicate PdptLinks(m: Memory, at: map<nat, Place>, b: Boot) {
    forall s, i {:trigger Leads(m, at, s, i, b.pdpt)} {:trigger Enters(b, s, i)} ::
      s in m && s in at && Depth(at[s]) == 0 && 0 <= i < ENTRIES ==> (Leads(m, at, s, i, b.pdpt) <==> Enters(b, s, i))
  }

  ghost predicate Shape(m: Memory, at: map<nat, Place>, b: Boot) {
    && b.pml4 in at && b.pdpt in at && b.pd in at && b.pd + 1 in at
    && (forall s :: s in at && at[s] == Kernel(0) <==> s == b.pml4)
    && at[b.pdpt] == Kernel(1) && at[b.pd] == at[b.pd + 1] == Kernel(2)
    && LargeOnly(m, b.pd) && LargeOnly(m, b.pd + 1)
    && PdptLinks(m, at, b) && OneLink(m, at, b)
  }

  lemma {:induction false} BootShape(b: Boot)
    requires b.Apart()
    ensures Shape(BootMemory(b), BootPlaces(b), b)
  {
    var m, at := BootMemory(b), BootPlaces(b);
    forall x, j, f | Leads(m, at, x, j, f) ensures f in {b.pdpt, b.pd, b.pd + 1} {}
  }

  // A step that adds no link, and none to or from the kernel's tables is lost.
  lemma {:induction false} ShapeKept(m: Memory, at: map<nat, Place>, w: Memory, b: Boot)
    requires Shape(m, at, b) && m.Keys == w.Keys == at.Keys
    requires forall x, j, f :: Leads(w, at, x, j, f) ==> Leads(m, at, x, j, f)
    requires forall x, j :: Leads(m, at, x, j, b.pdpt) ==> Leads(w, at, x, j, b.pdpt)
    requires LargeOnly(w, b.pd) && LargeOnly(w, b.pd + 1)
    ensures Shape(w, at, b)
  {
  }

  // A fresh table in slot i of t, which is not one of those in slot 511.
  lemma {:induction false} ShapeGrow(m: Memory, at: map<nat, Place>, b: Boot, t: nat, i: nat, f: nat, flags: set<Flag>)
    requires Tree(m, at) && Shape(m, at, b) && t in m && i < ENTRIES && Depth(at[t]) < 3 && f !in m
    requires Present !in m[t][i].flags || (at[t].Lower? && Under(at[t], i).Lower?)
    requires Present in flags && PageSize !in flags
    ensures Shape(Grow(m, t, i, f, flags), at[f := Under(at[t], i)], b)
  {
    var w, ats := Grow(m, t, i, f, flags), at[f := Under(at[t], i)];
    forall x, j, g | Leads(w, ats, x, j, g)
      ensures if x == t && j == i then g == f else g in m && Leads(m, at, x, j, g)
    {
      if x in m { assert Hangs(m, at, x, j); }
    }
    assert forall x, j, g :: Leads(m, at, x, j, g) && (x != t || j != i) ==> Leads(w, ats, x, j, g);
    assert PdptLinks(w, ats, b);
  }

  // ----- Pages that share their leaf

  // The paths p from r and q from s are the same, or differ only in the slots
  // that both lead to the boot PDPT.
  predicate Alias(b: Boot, r: nat, p: seq<nat>, s: nat, q: seq<nat>)
    requires |p| == |q| == 4
  {
    || (s == r && q == p)
    || (Enters(b, r, p[0]) && Enters(b, s, q[0]) && q[1..] == p[1..])
  }

  // For addresses: the same page, or the same one of the 2^27 in the slot.
  lemma {:induction false} AliasPages(b: Boot, r: nat, v: nat, s: nat, w: nat)
    ensures Alias(b, r, Path(v), s, Path(w)) <==>
      || (s == r && PageOf(w) == PageOf(v))
      || (Enters(b, r, Path(v)[0]) && Enters(b, s, Path(w)[0]) && PageOf(w) % 0x800_0000 == PageOf(v) % 0x800_0000)
  {
    PathIsPage(v, w);
    PageDigits(v);
    PageDigits(w);
    var p, q := Path(v), Path(w);
    assert q[1..] == p[1..] <==> q[1] == p[1] && q[2] == p[2] && q[3] == p[3];
    Digits(PageOf(v), p[0], p[1], p[2], p[3]);
    Digits(PageOf(w), q[0], q[1], q[2], q[3]);
  }

  lemma {:induction false} Digits(x: nat, a: nat, b: nat, c: nat, d: nat)
    requires x == ((a * 512 + b) * 512 + c) * 512 + d && b < 512 && c < 512 && d < 512
    ensures var y := x % 0x800_0000; y == (b * 512 + c) * 512 + d && y / 512 / 512 == b && y / 512 % 512 == c && y % 512 == d
  {
    var z := b * 512 + c;
    Quotient(x, 0x800_0000, a, z * 512 + d);
    Quotient(z * 512 + d, 512, z, d);
    Quotient(z, 512, b, c);
  }

  // The tables on the way from a directory to a table of leaves.
  ghost predicate Way(m: Memory, at: map<nat, Place>, s: nat, q: seq<nat>, c1: nat, c2: nat, t: nat)
    requires |q| == 4
  {
    && Leads(m, at, s, q[0], c1) && Leads(m, at, c1, q[1], c2) && Leads(m, at, c2, q[2], t)
    && Depth(at[s]) == 0 && Depth(at[c1]) == 1 && Depth(at[c2]) == 2
  }

  lemma {:induction false} WayTo(m: Memory, at: map<nat, Place>, s: nat, q: seq<nat>, t: nat) returns (c1: nat, c2: nat)
    requires Tree(m, at) && |q| == 4 && Indices(q) && s in m && Depth(at[s]) == 0 && LastTable(m, at, s, q) == Some(t)
    ensures Way(m, at, s, q, c1, c2, t) && t in m && Depth(at[t]) == 3
  {
    var q1 := q[1..];
    var q2 := q1[1..];
    assert q1[0] == q[1] && q2[0] == q[2] && |q2| == 2;
    assert Hangs(m, at, s, q[0]);
    c1 := m[s][q[0]].frame;
    assert LastTable(m, at, c1, q1) == Some(t);
    assert Hangs(m, at, c1, q[1]);
    c2 := m[c1][q[1]].frame;
    assert LastTable(m, at, c2, q2) == Some(t);
    assert Hangs(m, at, c2, q[2]);
    assert |q2[1..]| == 1 && LastTable(m, at, m[c2][q[2]].frame, q2[1..]) == Some(t);
  }

  lemma {:induction false} WayEnds(m: Memory, at: map<nat, Place>, s: nat, q: seq<nat>, c1: nat, c2: nat, t: nat)
    requires |q| == 4 && Way(m, at, s, q, c1, c2, t) && t in m && t in at && q[3] < |m[t]|
    ensures LastTable(m, at, s, q) == Some(t)
  {
    var q1 := q[1..];
    var q2 := q1[1..];
    assert q1[0] == q[1] && q2[0] == q[2] && |q2| == 2 && q2[1..] == [q[3]];
    assert LastTable(m, at, c2, q2) == LastTable(m, at, t, q2[1..]);
    assert LastTable(m, at, c1, q1) == LastTable(m, at, c2, q2);
  }

  // Main result: two paths end in the same slot of the same table exactly when
  // they are aliases.
  lemma {:induction false} AliasExactly(m: Memory, at: map<nat, Place>, b: Boot, r: nat, p: seq<nat>, s: nat,
                                        q: seq<nat>, t: nat)
    requires Tree(m, at) && Shape(m, at, b) && |p| == |q| == 4 && Indices(p) && Indices(q)
    requires r in m && Depth(at[r]) == 0 && LastTable(m, at, r, p) == Some(t)
    requires s in m && Depth(at[s]) == 0
    ensures LastTable(m, at, s, q) == Some(t) && q[3] == p[3] <==> Alias(b, r, p, s, q)
  {
    var t1, t2 := WayTo(m, at, r, p, t);
    if LastTable(m, at, s, q) == Some(t) && q[3] == p[3] {
      var c1, c2 := WayTo(m, at, s, q, t);
      WaysMeet(m, at, b, r, p, t1, t2, s, q, c1, c2, t);
    }
    if Alias(b, r, p, s, q) {
      AliasWay(m, at, b, r, p, t1, t2, s, q, t);
      WayEnds(m, at, s, q, t1, t2, t);
    }
  }

  lemma {:induction false} WaysMeet(m: Memory, at: map<nat, Place>, b: Boot, r: nat, p: seq<nat>, t1: nat, t2: nat,
                                    s: nat, q: seq<nat>, c1: nat, c2: nat, t: nat)
    requires Tree(m, at) && Shape(m, at, b) && |p| == |q| == 4 && q[3] == p[3]
    requires Way(m, at, r, p, t1, t2, t) && Way(m, at, s, q, c1, c2, t) && t in m && Depth(at[t]) == 3
    ensures Alias(b, r, p, s, q)
  {
    assert c2 == t2 && q[2] == p[2];
    assert t2 !in {b.pdpt, b.pd, b.pd + 1};
    assert c1 == t1 && q[1] == p[1];
    if t1 == b.pdpt {
      assert q[1..] == p[1..];
    } else {
      assert t1 !in {b.pd, b.pd + 1};
      assert s == r && q[0] == p[0];
      assert q == p;
    }
  }

  lemma {:induction false} AliasWay(m: Memory, at: map<nat, Place>, b: Boot, r: nat, p: seq<nat>, t1: nat, t2: nat,
                                    s: nat, q: seq<nat>, t: nat)
    requires Tree(m, at) && Shape(m, at, b) && |p| == |q| == 4 && Indices(q)
    requires Way(m, at, r, p, t1, t2, t) && s in m && Depth(at[s]) == 0 && Alias(b, r, p, s, q)
    ensures Way(m, at, s, q, t1, t2, t)
  {
    if !(s == r && q == p) {
      assert Leads(m, at, r, p[0], b.pdpt) && Leads(m, at, s, q[0], b.pdpt);
      assert q[1..][0] == p[1..][0] && q[1..][1] == p[1..][1];
    }
  }
}
