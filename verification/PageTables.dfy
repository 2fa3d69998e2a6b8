// Four-level paging as the processor sees it: entries, the walk of section 4.5
// of the Intel SDM volume 3A, and what one change of an entry does to all walks.
module PageTables {
  import opened Common

  // The low twelve bits of an entry; the processor ignores the last three, of
  // which the kernel uses MM_COW.
  datatype Flag =
    | Present | ReadWrite | User | WriteThrough | CacheDisable | Accessed
    | Dirty | PageSize | Global | Cow | Spare10 | Spare11

  // The 64-bit word frame * 4096 | flags; the frame is a page number.
  datatype Entry = Entry(frame: nat, flags: set<Flag>)

  const ENTRIES: nat := 512
  const EMPTY: Entry := Entry(0, {})

  // Physical memory that holds page tables, by frame.
  type Memory = map<nat, seq<Entry>>

  // The four table indices of a virtual address.
  function Path(v: nat): (p: seq<nat>)
    ensures |p| == 4 && Indices(p)
  {
    [v / 0x80_0000_0000 % 512, v / 0x4000_0000 % 512, v / 0x20_0000 % 512, v / 0x1000 % 512]
  }

  predicate Indices(p: seq<nat>) {
    forall i :: 0 <= i < |p| ==> p[i] < ENTRIES
  }

  // Bits 12-47 of a virtual address.
  function PageOf(v: nat): nat {
    v / 0x1000 % 0x10_0000_0000
  }

  // Two addresses take the same path exactly when they lie in the same page.
  lemma {:induction false} PathIsPage(v: nat, w: nat)
    ensures Path(v) == Path(w) <==> PageOf(v) == PageOf(w)
  {
    PageDigits(v);
    PageDigits(w);
  }

  lemma {:induction false} PageDigits(v: nat)
    ensures var x := PageOf(v);
      && Path(v)[3] == x % 512
      && Path(v)[2] == x / 512 % 512
      && Path(v)[1] == x / 512 / 512 % 512
      && Path(v)[0] == x / 512 / 512 / 512
      && x == ((Path(v)[0] * 512 + Path(v)[1]) * 512 + Path(v)[2]) * 512 + Path(v)[3]
  {
    var u, k := v / 0x1000, v / 0x1000 / 0x10_0000_0000;
    var x := PageOf(v);
    assert u == x + 0x10_0000_0000 * k;
    assert u / 512 == x / 512 + 0x800_0000 * k;
    assert u / 512 / 512 == x / 512 / 512 + 0x4_0000 * k;
    assert u / 512 / 512 / 512 == x / 512 / 512 / 512 + 0x200 * k;
    assert v / 0x20_0000 == u / 512;
    assert v / 0x4000_0000 == u / 512 / 512;
    assert v / 0x80_0000_0000 == u / 512 / 512 / 512;
  }

  // ----- The walk

  // A page is mapped by its leaf entry; above holds the flags that all entries
  // above it have in common, and rest counts the levels that a large page skips.
  datatype Translation = Fault | Map(entry: Entry, above: set<Flag>, rest: nat)

  const ALL_FLAGS: set<Flag> := {Present, ReadWrite, User, WriteThrough, CacheDisable, Accessed,
                                 Dirty, PageSize, Global, Cow, Spare10, Spare11}

  // The walk from table t through the indices p.
  function Walk(m: Memory, t: nat, p: seq<nat>): Translation
    decreases |p|
  {
    if p == [] || t !in m || p[0] >= |m[t]| then Fault else
      var e := m[t][p[0]];
      if Present !in e.flags then Fault
      else if |p| == 1 then Map(e, ALL_FLAGS, 0)
      else if |p| < 4 && PageSize in e.flags then Map(e, ALL_FLAGS, |p| - 1)
      else match Walk(m, e.frame, p[1..])
        case Fault => Fault
        case Map(l, above, rest) => Map(l, above * e.flags, rest)
  }

  // Both walks fault, or both end in the same entry.
  predicate SameTarget(a: Translation, b: Translation) {
    (a == Fault && b == Fault) || (a.Map? && b.Map? && a.entry == b.entry && a.rest == b.rest)
  }

  // The second walk ends where the first does; the flags in common on its way
  // may have grown, by flags only.
  predicate Widened(a: Translation, b: Translation, flags: set<Flag>) {
    && SameTarget(a, b)
    && (a.Map? ==> a.above <= b.above <= a.above + flags)
  }

  // ----- Where tables hang

  // A table below slots 0 to 510 of the directory pml4, reached through the
  // indices path; or one of the kernel's tables, at some depth. The boot
  // directory is the kernel's table of depth 0, and slot 511 of every directory
  // leads to a kernel table of depth 1.
  datatype Place = Lower(pml4: nat, path: seq<nat>) | Kernel(level: nat)

  function Depth(l: Place): nat {
    match l
    case Lower(_, path) => |path|
    case Kernel(level) => level
  }

  // Place of the table behind slot i. The kernel's tables may be shared, so all
  // that is said of them is their depth.
  function Under(l: Place, i: nat): Place {
    match l
    case Lower(r, path) => if path == [] && i == 511 then Kernel(1) else Lower(r, path + [i])
    case Kernel(level) => Kernel(level + 1)
  }

  // e, in a table at l, leads to a further table.
  predicate LeadsOn(l: Place, e: Entry) {
    Present in e.flags && Depth(l) < 3 && (Depth(l) == 0 || PageSize !in e.flags)
  }

  // Every entry that leads on leads to a table of the next depth. Below slots 0
  // to 510 the tables form trees: no table is used at two places.
  ghost predicate Tree(m: Memory, at: map<nat, Place>) {
    && at.Keys == m.Keys
    && (forall t :: t in m ==> |m[t]| == ENTRIES && Depth(at[t]) <= 3 && (Depth(at[t]) == 0 ==> RootPlace(at[t], t)))
    && (forall t, i :: t in m && 0 <= i < ENTRIES ==> Hangs(m, at, t, i))
  }

  predicate RootPlace(l: Place, t: nat) {
    l == Lower(t, []) || l == Kernel(0)
  }

  ghost predicate Hangs(m: Memory, at: map<nat, Place>, t: nat, i: nat) {
    t in m && t in at && i < |m[t]| && LeadsOn(at[t], m[t][i]) ==>
      m[t][i].frame in m && m[t][i].frame in at && at[m[t][i].frame] == Under(at[t], i)
  }

  // ----- One entry changes

  function Store(m: Memory, t: nat, i: nat, e: Entry): Memory
    requires t in m && i < |m[t]|
  {
    m[t := m[t][i := e]]
  }

  // Flags added to an entry that leads on widen the walks through it.
  lemma {:induction false} OrWalk(m: Memory, at: map<nat, Place>, t: nat, i: nat, flags: set<Flag>, s: nat, p: seq<nat>)
    requires Tree(m, at) && t in m && i < ENTRIES && LeadsOn(at[t], m[t][i]) && PageSize !in flags
    requires s in m && Indices(p) && Depth(at[s]) + |p| == 4
    ensures Widened(Walk(m, s, p), Walk(Store(m, t, i, Entry(m[t][i].frame, m[t][i].flags + flags)), s, p), flags)
    decreases |p|
  {
    if |p| > 1 && LeadsOn(at[s], m[s][p[0]]) {
      assert Hangs(m, at, s, p[0]);
      OrWalk(m, at, t, i, flags, m[s][p[0]].frame, p[1..]);
    }
  }

  lemma {:induction false} OrTree(m: Memory, at: map<nat, Place>, t: nat, i: nat, flags: set<Flag>)
    requires Tree(m, at) && t in m && i < ENTRIES && LeadsOn(at[t], m[t][i]) && PageSize !in flags
    ensures Tree(Store(m, t, i, Entry(m[t][i].frame, m[t][i].flags + flags)), at)
  {
    var w := Store(m, t, i, Entry(m[t][i].frame, m[t][i].flags + flags));
    forall s, j | s in w && 0 <= j < ENTRIES ensures Hangs(w, at, s, j) { assert Hangs(m, at, s, j); }
  }

  // A fresh empty table behind an entry that was not present changes no walk
  // from the other tables.
  function Grow(m: Memory, t: nat, i: nat, f: nat, flags: set<Flag>): Memory
    requires t in m && i < |m[t]| && f !in m
  {
    Store(m[f := seq(ENTRIES, _ => EMPTY)], t, i, Entry(f, flags))
  }

  lemma {:induction false} GrowWalk(m: Memory, at: map<nat, Place>, t: nat, i: nat, f: nat, flags: set<Flag>, s: nat,
                                    p: seq<nat>)
    requires Tree(m, at) && t in m && i < ENTRIES && Depth(at[t]) < 3 && Present !in m[t][i].flags
    requires f !in m && Present in flags && PageSize !in flags
    requires s in m && Indices(p) && Depth(at[s]) + |p| == 4
    ensures Walk(Grow(m, t, i, f, flags), s, p) == Walk(m, s, p)
    decreases |p|
  {
    var w := Grow(m, t, i, f, flags);
    if |p| > 1 {
      if LeadsOn(at[s], m[s][p[0]]) {
        assert Hangs(m, at, s, p[0]);
        GrowWalk(m, at, t, i, f, flags, m[s][p[0]].frame, p[1..]);
      } else if s == t && p[0] == i {
        assert Walk(w, f, p[1..]) == Fault;
      }
    }
  }

  lemma {:induction false} GrowTree(m: Memory, at: map<nat, Place>, t: nat, i: nat, f: nat, flags: set<Flag>)
    requires Tree(m, at) && t in m && i < ENTRIES && Depth(at[t]) < 3 && f !in m
    ensures Tree(Grow(m, t, i, f, flags), at[f := Under(at[t], i)])
  {
    var w, ats := Grow(m, t, i, f, flags), at[f := Under(at[t], i)];
    forall s, j | s in w && 0 <= j < ENTRIES ensures Hangs(w, ats, s, j) {
      if s != f { assert Hangs(m, at, s, j); }
    }
  }

  // The table whose entry ends the walk, if the walk reaches a table of depth 3.
  function LastTable(m: Memory, at: map<nat, Place>, s: nat, p: seq<nat>): Option<nat>
    decreases |p|
  {
    if p == [] || s !in m || s !in at || p[0] >= |m[s]| then None
    else if |p| == 1 then Some(s)
    else if LeadsOn(at[s], m[s][p[0]]) then LastTable(m, at, m[s][p[0]].frame, p[1..])
    else None
  }

  // A new leaf changes exactly the walks that end in its slot.
  lemma {:induction false} LeafWalk(m: Memory, at: map<nat, Place>, t: nat, i: nat, e: Entry, s: nat, p: seq<nat>)
    requires Tree(m, at) && t in m && i < ENTRIES && Depth(at[t]) == 3
    requires s in m && Indices(p) && p != [] && Depth(at[s]) + |p| == 4
    ensures LastTable(m, at, s, p) != Some(t) || p[|p| - 1] != i ==> Walk(Store(m, t, i, e), s, p) == Walk(m, s, p)
    decreases |p|
  {
    if |p| > 1 && LeadsOn(at[s], m[s][p[0]]) {
      assert Hangs(m, at, s, p[0]);
      LeafWalk(m, at, t, i, e, m[s][p[0]].frame, p[1..]);
    }
  }

  lemma {:induction false} LeafTree(m: Memory, at: map<nat, Place>, t: nat, i: nat, e: Entry)
    requires Tree(m, at) && t in m && i < ENTRIES && Depth(at[t]) == 3
    ensures Tree(Store(m, t, i, e), at)
  {
    var w := Store(m, t, i, e);
    forall s, j | s in w && 0 <= j < ENTRIES ensures Hangs(w, at, s, j) { assert Hangs(m, at, s, j); }
  }

  // ----- All walks at once

  ghost predicate WalksWidened(m: Memory, w: Memory, at: map<nat, Place>, flags: set<Flag>) {
    forall s, p :: s in m && s in at && Indices(p) && Depth(at[s]) + |p| == 4 ==>
      Widened(Walk(m, s, p), Walk(w, s, p), flags)
  }

  lemma {:induction false} WidenedTwice(m: Memory, w: Memory, x: Memory, at: map<nat, Place>, ats: map<nat, Place>,
                                        flags: set<Flag>)
    requires WalksWidened(m, w, at, flags) && WalksWidened(w, x, ats, flags)
    requires m.Keys <= w.Keys && forall s :: s in m && s in at ==> s in ats && ats[s] == at[s]
    ensures WalksWidened(m, x, at, flags)
  {
    forall s, p | s in m && s in at && Indices(p) && Depth(at[s]) + |p| == 4
      ensures Widened(Walk(m, s, p), Walk(x, s, p), flags)
    {
      assert Widened(Walk(m, s, p), Walk(w, s, p), flags) && Widened(Walk(w, s, p), Walk(x, s, p), flags);
    }
  }

  // ----- Walks that meet no changed table

  // Tables at k can be reached from one at l.
  predicate Reaches(l: Place, k: Place) {
    match l
    case Lower(r, path) => if k.Lower? then r == k.pml4 && path <= k.path else path == []
    case Kernel(level) => k.Kernel? && level <= k.level
  }

  lemma {:induction false} ReachesUnder(l: Place, i: nat, k: Place)
    requires Reaches(Under(l, i), k)
    ensures Reaches(l, k)
  {
  }

  lemma {:induction false} Avoid(m: Memory, w: Memory, at: map<nat, Place>, xs: set<nat>, s: nat, p: seq<nat>)
    requires Tree(m, at) && s in m && Indices(p) && Depth(at[s]) + |p| == 4
    requires forall x :: x in m && x !in xs ==> x in w && w[x] == m[x]
    requires forall x :: x in m && x in xs ==> !Reaches(at[s], at[x])
    ensures Walk(w, s, p) == Walk(m, s, p)
    decreases |p|
  {
    if |p| > 1 && LeadsOn(at[s], m[s][p[0]]) {
      assert Hangs(m, at, s, p[0]);
      var c := m[s][p[0]].frame;
      forall x | x in m && x in xs ensures !Reaches(at[c], at[x]) {
        if Reaches(at[c], at[x]) { ReachesUnder(at[s], p[0], at[x]); }
      }
      Avoid(m, w, at, xs, c, p[1..]);
    }
  }

  // Slot i of table t leads on to table f.
  predicate Leads(m: Memory, at: map<nat, Place>, t: nat, i: nat, f: nat) {
    t in m && t in at && i < |m[t]| && LeadsOn(at[t], m[t][i]) && m[t][i].frame == f
  }

  // ----- Large pages

  // No large page on the way.
  ghost predicate Small(m: Memory, r: nat, p: seq<nat>) {
    Walk(m, r, p).Map? ==> Walk(m, r, p).rest == 0
  }

  // The first 4 KB of data pages, by frame; each word is read as an entry.
  type Data = map<nat, seq<Entry>>

  // The page is no 1 GB page, and a 2 MB page is one of data.
  ghost predicate Plain(m: Memory, d: Data, t: nat, p: seq<nat>) {
    var x := Walk(m, t, p);
    x.Map? ==> x.rest <= 1 && (x.rest == 1 ==> x.entry.frame in d)
  }
}
