// Whole runs of the calls of src/arch/amd64/mmu.c that change page directories.
module DirectoryRuns {
  import opened DirectoryCopy
  import opened KernelTables
  import opened Mmu
  import opened PageTables
  import opened TableCounts
  import opened TableWays

  // ----- Every path is that of an address

  function Address(p: seq<nat>): nat
    requires |p| == 4
  {
    (((p[0] * 512 + p[1]) * 512 + p[2]) * 512 + p[3]) * 0x1000
  }

  lemma {:induction false} PathOfAddress(p: seq<nat>)
    requires |p| == 4 && Indices(p)
    ensures Path(Address(p)) == p
  {
    var u := ((p[0] * 512 + p[1]) * 512 + p[2]) * 512 + p[3];
    var v := Address(p);
    assert v / 0x1000 == u && v / 0x20_0000 == u / 512 && v / 0x4000_0000 == u / 512 / 512;
    assert v / 0x80_0000_0000 == u / 512 / 512 / 512;
    assert u / 512 == (p[0] * 512 + p[1]) * 512 + p[2] && u / 512 / 512 == p[0] * 512 + p[1];
  }

  // amd64_duplicate_dir may be called for a directory without large pages.
  lemma {:induction false} LowerPlain(m: Memory, d: Data, o: nat)
    requires LowerSmall(m, o)
    ensures TablePlain(m, d, o, 4)
  {
    forall k, q | 0 <= k < 511 && |q| == 3 && Indices(q) ensures Plain(m, d, o, [k] + q) {
      PathOfAddress([k] + q);
      assert Small(m, o, Path(Address([k] + q)));
    }
  }

  // ----- Runs

  datatype State = State(mem: Memory, data: Data, at: map<nat, Place>)
  {
    ghost predicate Directory(r: nat) {
      r in mem && r in at && at[r] == Lower(r, [])
    }

    // No directory that was built has a large page below slot 511.
    ghost predicate Tidy() {
      mem.Keys == at.Keys && forall r :: Directory(r) ==> LowerSmall(mem, r)
    }
  }

  datatype Call =
    | MapPage(r: nat, frame: nat, v: nat, flags: set<Flag>)
    | Build(devices: seq<nat>)
    | Duplicate(o: nat, devices: seq<nat>)

  predicate LowDevices(devices: seq<nat>) {
    forall k :: 0 <= k < |devices| ==> Path(devices[k] * 0x1000)[0] != 511
  }

  // A page can be mapped in any directory. In one that was built, large pages
  // need no mention.
  ghost predicate Callable(s: State, c: Call) {
    match c
    case MapPage(r, frame, v, flags) =>
      && r in s.mem && r in s.at && Depth(s.at[r]) == 0 && PageSize !in flags
      && (!IsLower(s.at[r], Path(v)) ==> Plain(s.mem, s.data, r, Path(v)))
    case Build(devices) => LowDevices(devices)
    case Duplicate(o, devices) => s.Directory(o) && LowDevices(devices)
  }

  ghost predicate SameTranslation(s: State, t: State, r: nat, v: nat) {
    Walk(t.mem, r, Path(v)) == Walk(s.mem, r, Path(v))
  }

  // What the call does; n is the directory that it returns.
  ghost predicate Step(b: Boot, s: State, c: Call, n: nat, t: State) {
    && t.mem.Keys == t.at.Keys
    && match c
       case MapPage(r, frame, v, flags) =>
         && Extended(s.mem, s.at, t.mem, t.at, {})
         && PageMapped(b, s.mem, s.at, s.data, t.mem, t.data, r, v, Entry(frame, flags + {Present}), flags)
       case Build(devices) =>
         && Extended(s.mem, s.at, t.mem, t.at, {n}) && n !in s.mem && t.Directory(n)
         && OnlyDevices(t.mem, n, devices, |devices|) && t.data == s.data
         && (forall r, v: nat :: r in s.mem && r in s.at && Depth(s.at[r]) == 0 ==> SameTranslation(s, t, r, v))
       case Duplicate(o, devices) =>
         && Extended(s.mem, s.at, t.mem, t.at, {n}) && n !in s.mem && t.Directory(n)
         && Duplicated(s.mem, s.data, t.mem, o, n, devices)
         && (forall r, v: nat ::
               r in s.mem && r in s.at && Depth(s.at[r]) == 0 && (r != o || Path(v)[0] == 511) ==> SameTranslation(s, t, r, v))
  }

  // A run from the boot tables on.
  ghost predicate Run(b: Boot, ss: seq<State>, cs: seq<Call>, ns: seq<nat>) {
    && |ss| == |cs| + 1 && |ns| == |cs|
    && ss[0].mem == BootMemory(b) && ss[0].at == BootPlaces(b)
    && (forall k, l :: 0 <= k < |cs| && l == k + 1 ==> Callable(ss[k], cs[k]) && Step(b, ss[k], cs[k], ns[k], ss[l]))
  }

  lemma {:induction false} TidyStep(b: Boot, s: State, c: Call, n: nat, t: State)
    requires s.Tidy() && Callable(s, c) && Step(b, s, c, n, t)
    ensures t.Tidy()
  {
    forall r | t.Directory(r) ensures LowerSmall(t.mem, r) {
      match c
      case MapPage(_, _, _, _) => MapTidy(b, s, c, t, r);
      case Build(devices) =>
        if r == n { DevicesSmall(t.mem, n, devices, |devices|); } else { KeptSmall(s, t, r); }
      case Duplicate(o, devices) =>
        CopySmall(s.mem, s.data, t.mem, o, n, devices);
        if r != n && r != o { KeptSmall(s, t, r); }
    }
  }

  lemma {:induction false} KeptSmall(s: State, t: State, r: nat)
    requires s.Tidy() && s.Directory(r) && forall v: nat :: SameTranslation(s, t, r, v)
    ensures LowerSmall(t.mem, r)
  {
    forall v: nat | Path(v)[0] != 511 ensures Small(t.mem, r, Path(v)) {
      assert SameTranslation(s, t, r, v) && Small(s.mem, r, Path(v));
    }
  }

  lemma {:induction false} MapTidy(b: Boot, s: State, c: Call, t: State, r: nat)
    requires s.Tidy() && c.MapPage? && Callable(s, c) && Step(b, s, c, 0, t) && t.Directory(r)
    ensures LowerSmall(t.mem, r)
  {
    var leaf := Entry(c.frame, c.flags + {Present});
    assert s.Directory(r);
    forall x: nat | Path(x)[0] != 511 ensures Small(t.mem, r, Path(x)) {
      assert Small(s.mem, r, Path(x));
      if Small(s.mem, c.r, Path(c.v)) {
        assert MappedAt(b, s.mem, t.mem, c.r, c.v, leaf, c.flags, r, Path(x));
      } else {
        assert Broadened(Walk(s.mem, r, Path(x)), Walk(t.mem, r, Path(x)), c.flags);
      }
    }
  }

  // Main result: in every run each directory stays free of large pages below
  // slot 511.
  lemma {:induction false} ReachableDirectories(b: Boot, ss: seq<State>, cs: seq<Call>, ns: seq<nat>, k: nat)
    requires Run(b, ss, cs, ns) && k <= |cs|
    ensures ss[k].Tidy()
  {
    if k > 0 {
      ReachableDirectories(b, ss, cs, ns, k - 1);
      TidyStep(b, ss[k - 1], cs[k - 1], ns[k - 1], ss[k]);
    }
  }

  // And so every duplicate is a copy, those of duplicates, too.
  lemma {:induction false} EveryDuplicateIsCopy(b: Boot, ss: seq<State>, cs: seq<Call>, ns: seq<nat>, k: nat)
    requires Run(b, ss, cs, ns) && k < |cs| && cs[k].Duplicate?
    ensures IsCopy(ss[k].mem, ss[k + 1].mem, cs[k].o, ns[k])
  {
    ReachableDirectories(b, ss, cs, ns, k);
    assert Step(b, ss[k], cs[k], ns[k], ss[k + 1]);
    CopyExactly(ss[k].mem, ss[k].data, ss[k + 1].mem, cs[k].o, ns[k], cs[k].devices);
  }

  // ----- The calls

  ghost function View(d: PageDirectories): State
    reads d
  {
    State(d.mem, d.data, d.at)
  }

  // Frames that a call takes.
  ghost function Needed(s: State, c: Call): nat {
    match c
    case MapPage(r, frame, v, flags) => Missing(s.mem, r, Path(v))
    case Build(devices) => 1 + |TablePaths(devices, |devices|)|
    case Duplicate(o, devices) => TablesOfCopy(s.mem, o, devices)
  }

  // Any call, in any state that a run can reach.
  method Perform(d: PageDirectories, c: Call) returns (ok: bool, n: nat)
    requires d.Valid() && View(d).Tidy() && Callable(View(d), c)
    modifies d`mem, d`pool, d`at, d`data
    ensures Served(ok, old(d.pool), d.pool, Needed(old(View(d)), c))
    ensures ok ==> Frames(d.mem, d.pool) == Frames(old(d.mem), old(d.pool))
    ensures ok ==> d.Valid() && View(d).Tidy() && Step(d.boot, old(View(d)), c, n, View(d))
  {
    n := 0;
    match c {
      case MapPage(r, frame, v, flags) =>
        CallPlain(View(d), c);
        ok := d.MapPage(r, frame, v, flags);
        if ok {
          MadeFrames(old(d.mem), old(d.at), d.mem, r, Path(v), Entry(frame, flags + {Present}), flags, old(d.pool));
        }
      case Build(devices) => ok, n := PerformBuild(d, devices);
      case Duplicate(o, devices) =>
        LowerPlain(d.mem, d.data, o);
        ok, n := DirectoryCopy.Duplicate(d, o, devices);
    }
    if ok { TidyStep(d.boot, old(View(d)), c, n, View(d)); }
  }

  lemma {:induction false} CallPlain(s: State, c: Call)
    requires Tree(s.mem, s.at) && s.Tidy() && c.MapPage? && Callable(s, c)
    ensures Plain(s.mem, s.data, c.r, Path(c.v))
  {
    if IsLower(s.at[c.r], Path(c.v)) {
      assert s.Directory(c.r);
      assert Small(s.mem, c.r, Path(c.v));
    }
  }

  method PerformBuild(d: PageDirectories, devices: seq<nat>) returns (ok: bool, n: nat)
    requires d.Valid() && LowDevices(devices)
    modifies d`mem, d`pool, d`at, d`data
    ensures Served(ok, old(d.pool), d.pool, Needed(old(View(d)), Call.Build(devices)))
    ensures ok ==> Frames(d.mem, d.pool) == Frames(old(d.mem), old(d.pool))
    ensures ok ==> d.Valid() && Step(d.boot, old(View(d)), Call.Build(devices), n, View(d))
  {
    ok, n := BuildDir(d, devices);
    if !ok { return; }
    forall r, v: nat | r in old(d.mem) && Depth(old(d.at)[r]) == 0
      ensures SameTranslation(old(View(d)), View(d), r, v)
    {
      SameForOthers(old(d.mem), d.mem, old(d.at), n, r, Path(v));
    }
  }

  // ----- Examples

  const LAPIC: nat := 0xfee0_0000
  const LAPIC_ALIAS: nat := 0xffff_ff80_fee0_0000

  lemma {:induction false} LapicPaths()
    ensures Path(LAPIC) == [0, 3, 503, 0] && Path(LAPIC_ALIAS) == [511, 3, 503, 0]
  {
  }

  // After boot the page of the local APIC is mapped at two addresses of the boot
  // directory, once by each slot that leads to the PDPT.
  method BootAlias(b: Boot, data: Data, pool: seq<nat>) returns (ok: bool, d: PageDirectories)
    requires b.Apart()
    requires forall i :: 0 <= i < |pool| ==> pool[i] !in {b.pml4, b.pdpt, b.pd, b.pd + 1}
    requires forall f :: f in data ==> f !in {b.pml4, b.pdpt, b.pd, b.pd + 1}
    requires forall f :: f in data ==> |data[f]| == ENTRIES && f !in pool
    requires forall i, j :: 0 <= i < j < |pool| ==> pool[i] != pool[j]
    ensures ok <==> |pool| >= 2
    ensures ok ==> d.Valid() && d.pool == pool[2..]
    ensures ok ==> LeafAt(d.mem, b.pml4, Path(LAPIC), Entry(0xfee00, TABLE_FLAGS), {})
    ensures ok ==> LeafAt(d.mem, b.pml4, Path(LAPIC_ALIAS), Entry(0xfee00, TABLE_FLAGS), {})
  {
    d := new PageDirectories(b, data, pool);
    ok := MapLapic(d);
  }

  method MapLapic(d: PageDirectories) returns (ok: bool)
    requires d.Valid() && d.boot.Apart() && d.mem == BootMemory(d.boot)
    modifies d`mem, d`pool, d`at, d`data
    ensures Served(ok, old(d.pool), d.pool, 2)
    ensures ok ==> d.Valid()
    ensures ok ==> LeafAt(d.mem, d.boot.pml4, Path(LAPIC), Entry(0xfee00, TABLE_FLAGS), {})
    ensures ok ==> LeafAt(d.mem, d.boot.pml4, Path(LAPIC_ALIAS), Entry(0xfee00, TABLE_FLAGS), {})
  {
    LapicPaths();
    BootFree(d.boot, Path(LAPIC));
    BootMissing(d.boot, Path(LAPIC));
    ghost var m, at := d.mem, d.at;
    ok := d.MapKernelPage(0xfee00, LAPIC, TABLE_FLAGS);
    if !ok { return; }
    assert TABLE_FLAGS + {Present} == TABLE_FLAGS;
    LapicTwice(d.boot, m, at, d.mem);
  }

  lemma {:induction false} LapicTwice(b: Boot, m: Memory, at: map<nat, Place>, w: Memory)
    requires b.pml4 in m && b.pml4 in at && at[b.pml4] == Kernel(0)
    requires MappedExactly(b, m, at, w, b.pml4, LAPIC, Entry(0xfee00, TABLE_FLAGS), TABLE_FLAGS)
    ensures LeafAt(w, b.pml4, Path(LAPIC), Entry(0xfee00, TABLE_FLAGS), {})
    ensures LeafAt(w, b.pml4, Path(LAPIC_ALIAS), Entry(0xfee00, TABLE_FLAGS), {})
  {
    LapicPaths();
    assert MappedAt(b, m, w, b.pml4, LAPIC, Entry(0xfee00, TABLE_FLAGS), TABLE_FLAGS, b.pml4, Path(LAPIC));
    assert MappedAt(b, m, w, b.pml4, LAPIC, Entry(0xfee00, TABLE_FLAGS), TABLE_FLAGS, b.pml4, Path(LAPIC_ALIAS));
  }

  lemma {:induction false} BootFree(b: Boot, p: seq<nat>)
    requires b.Apart() && |p| == 4 && Indices(p) && p[0] == 0 && 1 < p[1] < KERNEL_PDPTI
    ensures Walk(BootMemory(b), b.pml4, p) == Fault
  {
    var m, q := BootMemory(b), p[1..];
    assert q[0] == p[1] && m[b.pdpt][p[1]] == EMPTY;
    assert Walk(m, b.pdpt, q) == Fault;
  }

  lemma {:induction false} BootMissing(b: Boot, p: seq<nat>)
    requires b.Apart() && |p| == 4 && Indices(p) && p[0] == 0 && 1 < p[1] < KERNEL_PDPTI
    ensures Missing(BootMemory(b), b.pml4, p) == 2
  {
    var m, q := BootMemory(b), p[1..];
    assert q[0] == p[1] && m[b.pdpt][p[1]] == EMPTY;
    assert Missing(m, b.pdpt, q) == 2;
  }

  // A directory with one 2 MB page.
  const BOOT: Boot := Boot(1, 2, 3)
  const LARGE_PAGE: Entry := Entry(512, {Present, ReadWrite, User, PageSize})

  function First(e: Entry): seq<Entry> {
    seq(ENTRIES, i => if i == 0 then e else EMPTY)
  }

  function LargeMemory(): Memory {
    BootMemory(BOOT)[10 := First(Entry(11, TABLE_FLAGS))[511 := Entry(BOOT.pdpt, TABLE_FLAGS)]]
    [11 := First(Entry(12, TABLE_FLAGS))][12 := First(LARGE_PAGE)]
  }

  function LargePlaces(): map<nat, Place> {
    BootPlaces(BOOT)[10 := Lower(10, [])][11 := Lower(10, [0])][12 := Lower(10, [0, 0])]
  }

  // amd64_duplicate_dir may be called for it, but what it returns is no copy.
  lemma {:induction false} LargeExample(d: Data, w: Memory, c: nat, devices: seq<nat>)
    requires 512 in d
    ensures Tree(LargeMemory(), LargePlaces()) && Shape(LargeMemory(), LargePlaces(), BOOT)
    ensures TablePlain(LargeMemory(), d, 10, 4)
    ensures Duplicated(LargeMemory(), d, w, 10, c, devices) ==> !IsCopy(LargeMemory(), w, 10, c)
  {
    LargeTables();
    LargeKernel();
    LargePlain(d);
    LargeThere();
    if Duplicated(LargeMemory(), d, w, 10, c, devices) {
      CopyExactly(LargeMemory(), d, w, 10, c, devices);
      assert !Small(LargeMemory(), 10, Path(0));
    }
  }

  lemma {:induction false} LargeTables()
    ensures Tree(LargeMemory(), LargePlaces())
  {
    var m, at := LargeMemory(), LargePlaces();
    LargeRows();
    forall t, i | t in m && 0 <= i < ENTRIES ensures Hangs(m, at, t, i) { LargeHangs(t, i); }
  }

  lemma {:induction false} LargeRows()
    ensures LargeMemory().Keys == LargePlaces().Keys == {1, 2, 3, 4, 10, 11, 12}
    ensures forall t :: t in LargeMemory() ==> |LargeMemory()[t]| == ENTRIES
  {
  }

  lemma {:induction false} LargeHangs(t: nat, i: nat)
    requires t in LargeMemory() && i < ENTRIES
    ensures Hangs(LargeMemory(), LargePlaces(), t, i)
  {
    var m, at := LargeMemory(), LargePlaces();
    assert Under(Lower(10, []), 0) == Lower(10, [0]) && Under(Lower(10, [0]), 0) == Lower(10, [0, 0]);
    LargeRows();
    LargeLinks();
    if LeadsOn(at[t], m[t][i]) { assert Leads(m, at, t, i, m[t][i].frame); }
  }

  lemma {:induction false} LargeKernel()
    ensures Shape(LargeMemory(), LargePlaces(), BOOT)
  {
    LargeLinks();
  }

  lemma {:induction false} LargeLinks()
    ensures forall x, j, f :: Leads(LargeMemory(), LargePlaces(), x, j, f) ==>
      || (f in {BOOT.pd, BOOT.pd + 1} && x == BOOT.pdpt)
      || (f == BOOT.pdpt && ((x == BOOT.pml4 && j == 0) || (x in {BOOT.pml4, 10} && j == 511)))
      || (x == 10 && j == 0 && f == 11) || (x == 11 && j == 0 && f == 12)
  {
  }

  lemma {:induction false} LargeThere()
    ensures Path(0) == [0, 0, 0, 0]
    ensures Walk(LargeMemory(), 10, Path(0)).Map? && Walk(LargeMemory(), 10, Path(0)).rest == 1
  {
    var m, p := LargeMemory(), Path(0);
    assert p[1..][0] == 0 && p[1..][1..][0] == 0;
    assert Walk(m, 12, p[1..][1..]) == Map(LARGE_PAGE, ALL_FLAGS, 1);
    assert Walk(m, 11, p[1..]).Map? && Walk(m, 11, p[1..]).rest == 1;
  }

  lemma {:induction false} LargePlain(d: Data)
    requires 512 in d
    ensures TablePlain(LargeMemory(), d, 10, 4)
  {
    var m := LargeMemory();
    forall k, q | 0 <= k < 511 && |q| == 3 && Indices(q) ensures Plain(m, d, 10, [k] + q) {
      assert ([k] + q)[1..] == q;
      var x, y := Walk(m, 12, q[1..]), Walk(m, 11, q);
      assert x.Map? ==> x == Map(LARGE_PAGE, ALL_FLAGS, 1);
      assert y.Map? ==> y.entry == LARGE_PAGE && y.rest == 1;
    }
  }
}
