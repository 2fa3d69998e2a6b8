// Page directories as src/arch/amd64/mmu.c changes them: amd64_map_page_to_dir,
// amd64_build_dir and amd64_duplicate_dir.
module Mmu {
  import opened KernelTables
  import opened PageTables
  import opened TableWays
  import opened Common

  // ----- The tables

  class PageDirectories {
    var mem: Memory
    // The first 4 KB of data pages, each word read as an entry.
    var data: Data
    // Frames that mm_block_alloc will hand out next; it panics when there is none.
    var pool: seq<nat>
    // Where the linker has placed the kernel's own tables.
    const boot: Boot
    // Where each table hangs.
    ghost var at: map<nat, Place>

    ghost predicate Valid()
      reads this
    {
      Tree(mem, at) && Shape(mem, at, boot) && Spare(mem, data, pool)
    }

    // mm_native_init
    constructor (boot: Boot, data: Data, pool: seq<nat>)
      requires boot.Apart()
      requires forall i :: 0 <= i < |pool| ==> pool[i] !in {boot.pml4, boot.pdpt, boot.pd, boot.pd + 1}
      requires forall f :: f in data ==> f !in {boot.pml4, boot.pdpt, boot.pd, boot.pd + 1}
      requires forall f :: f in data ==> |data[f]| == ENTRIES && f !in pool
      requires forall i, j :: 0 <= i < j < |pool| ==> pool[i] != pool[j]
      ensures Valid() && this.boot == boot && this.data == data && this.pool == pool
      ensures mem == BootMemory(boot) && at == BootPlaces(boot)
    {
      BootTree(boot);
      BootShape(boot);
      var pds: seq<Entry> := seq(2 * ENTRIES, _ => EMPTY);
      for i := 0 to 2 * ENTRIES
        invariant |pds| == 2 * ENTRIES && forall j :: 0 <= j < i ==> pds[j] == Entry(j * ENTRIES, LARGE_FLAGS)
      {
        pds := pds[i := Entry(i * ENTRIES, LARGE_FLAGS)];
      }
      assert pds == BootPd();
      var pdpts: seq<Entry> := seq(ENTRIES, _ => EMPTY);
      for i := 0 to 2
        invariant |pdpts| == ENTRIES
        invariant forall j :: 0 <= j < i ==> pdpts[j] == Entry(boot.pd + j, TABLE_FLAGS)
        invariant forall j :: KERNEL_PDPTI <= j < KERNEL_PDPTI + i ==> pdpts[j] == Entry(boot.pd + (j - KERNEL_PDPTI), TABLE_FLAGS)
        invariant forall j :: 0 <= j < ENTRIES && !(j < i || KERNEL_PDPTI <= j < KERNEL_PDPTI + i) ==> pdpts[j] == EMPTY
      {
        pdpts := pdpts[i := Entry(boot.pd + i, TABLE_FLAGS)][KERNEL_PDPTI + i := Entry(boot.pd + i, TABLE_FLAGS)];
      }
      assert pdpts == BootPdpt(boot.pd);
      var entry := Entry(boot.pdpt, TABLE_FLAGS);
      var pml4s: seq<Entry> := seq(ENTRIES, _ => EMPTY)[0 := entry][KERNEL_PML4I := entry];
      assert pml4s == BootPml4(boot.pdpt);
      var m: Memory := map[boot.pml4 := pml4s, boot.pdpt := pdpts, boot.pd := pds[..ENTRIES], boot.pd + 1 := pds[ENTRIES..]];
      assert m == BootMemory(boot);
      mem, at := m, BootPlaces(boot);
      this.boot, this.data, this.pool := boot, data, pool;
    }

    // Tables of the state m, ats are still there, at the same places, and of the
    // others only dirs are directories.
    ghost predicate Extends(m: Memory, ats: map<nat, Place>, dirs: set<nat>)
      reads this
    {
      Extended(m, ats, mem, at, dirs)
    }

    // __alloc_page_directory_entry, stored in slot i of table t with more flags.
    method AllocInto(t: nat, i: nat, more: set<Flag>) returns (ok: bool)
      requires Valid() && t in mem && i < ENTRIES && Depth(at[t]) < 3
      requires PageSize !in more
      requires Present !in mem[t][i].flags || (at[t].Lower? && Under(at[t], i).Lower?)
      modifies this`mem, this`pool, this`at
      ensures ok == (old(pool) != [])
      ensures !ok ==> mem == old(mem) && at == old(at) && pool == old(pool)
      ensures ok ==>
        && Valid() && pool == old(pool)[1..]
        && mem == Grow(old(mem), t, i, old(pool)[0], {Present, ReadWrite} + more)
        && at == old(at)[old(pool)[0] := Under(old(at)[t], i)]
    {
      if pool == [] { return false; }
      var f := pool[0];
      pool := pool[1..];
      GrowTree(mem, at, t, i, f, {Present, ReadWrite} + more);
      ShapeGrow(mem, at, boot, t, i, f, {Present, ReadWrite} + more);
      ghost var place := Under(at[t], i);
      mem := mem[f := seq(ENTRIES, _ => EMPTY)];
      mem := Store(mem, t, i, Entry(f, {Present, ReadWrite} + more));
      at := at[f := place];
      ok := true;
    }

    // One level of amd64_map_page_to_dir: the table behind slot i of table t,
    // created if it is missing.
    method EnsureTable(t: nat, i: nat, flags: set<Flag>) returns (ok: bool, next: nat)
      requires Valid() && t in mem && i < ENTRIES && Depth(at[t]) < 3 && PageSize !in flags
      requires Present in mem[t][i].flags ==> LeadsOn(at[t], mem[t][i])
      modifies this`mem, this`pool, this`at
      ensures !ok ==> pool == []
      ensures ok ==> Valid() && Ensured(old(mem), old(at), mem, at, t, i, flags)
      ensures ok ==> Link(mem, at, t, i, next, flags) && next in mem
      ensures OpensExactly(ok, old(mem), old(pool), mem, pool, t, i, next, flags)
    {
      if Present !in mem[t][i].flags {
        ok := NewTable(t, i, flags);
        if !ok { return false, 0; }
      } else {
        EnsuredSame(mem, at, t, i, flags);
      }
      ok := true;
      ghost var m := mem;
      next := FlagTable(t, i, flags);
      FilledOpens(old(mem), old(pool), m, pool, mem, t, i, flags);
      EnsuredFlags(old(mem), old(at), m, mem, at, t, i, flags);
    }

    // The end of a level: the table that is there gets the flags.
    method FlagTable(t: nat, i: nat, flags: set<Flag>) returns (next: nat)
      requires Valid() && t in mem && i < ENTRIES && LeadsOn(at[t], mem[t][i]) && PageSize !in flags
      modifies this`mem
      ensures Valid() && mem == Store(old(mem), t, i, Entry(old(mem)[t][i].frame, old(mem)[t][i].flags + flags))
      ensures WalksWidened(old(mem), mem, at, flags) && next == old(mem)[t][i].frame
      ensures Link(mem, at, t, i, next, flags) && next in mem
    {
      assert Hangs(mem, at, t, i);
      next := mem[t][i].frame;
      AddFlags(t, i, flags);
    }

    // AllocInto for a slot that is not present.
    method NewTable(t: nat, i: nat, ghost flags: set<Flag>) returns (ok: bool)
      requires Valid() && t in mem && i < ENTRIES && Depth(at[t]) < 3 && PageSize !in flags
      requires Present !in mem[t][i].flags
      modifies this`mem, this`pool, this`at
      ensures ok == (old(pool) != []) && (!ok ==> pool == [])
      ensures ok ==> Valid() && Ensured(old(mem), old(at), mem, at, t, i, flags) && LeadsOn(at[t], mem[t][i])
      ensures ok ==> Filled(old(mem), old(pool), mem, pool, t, i)
    {
      ok := AllocInto(t, i, {});
      if !ok { return; }
      GrowWidens(old(mem), old(at), t, i, old(pool)[0], {Present, ReadWrite} + {}, flags);
      assert {Present, ReadWrite} + {} == NEW_FLAGS;
    }

    // entry |= flags
    method AddFlags(t: nat, i: nat, flags: set<Flag>)
      requires Valid() && t in mem && i < ENTRIES && LeadsOn(at[t], mem[t][i]) && PageSize !in flags
      modifies this`mem
      ensures Valid() && mem == Store(old(mem), t, i, Entry(old(mem)[t][i].frame, old(mem)[t][i].flags + flags))
      ensures WalksWidened(old(mem), mem, at, flags)
    {
      OrTree(mem, at, t, i, flags);
      OrShape(mem, at, boot, t, i, flags);
      mem := Store(mem, t, i, Entry(mem[t][i].frame, mem[t][i].flags + flags));
      forall s, p | s in old(mem) && s in at && Indices(p) && Depth(at[s]) + |p| == 4
        ensures Widened(Walk(old(mem), s, p), Walk(mem, s, p), flags)
      {
        OrWalk(old(mem), at, t, i, flags, s, p);
      }
    }

    // amd64_map_page_to_dir. Without a large page in the way, afterwards exactly
    // the aliases of the page end in its leaf, in all directories. The program
    // does not ask for a large page: in a 2 MB page it overwrites a word.
    method MapPage(r: nat, frame: nat, v: nat, flags: set<Flag>) returns (ok: bool)
      requires Valid() && r in mem && Depth(at[r]) == 0 && PageSize !in flags
      requires Plain(mem, data, r, Path(v))
      modifies this`mem, this`pool, this`at, this`data
      ensures Served(ok, old(pool), pool, Missing(old(mem), r, Path(v)))
      ensures ok ==> mem == Mapped(old(mem), r, Path(v), Entry(frame, flags + {Present}), flags, old(pool))
      ensures ok ==>
        MadeExactly(old(mem), old(at), mem, r, Path(v), Entry(frame, flags + {Present}), flags, old(pool))
      ensures ok ==> Valid() && Extends(old(mem), old(at), {})
      ensures ok && IsLower(old(at)[r], Path(v)) ==> OthersSame(old(mem), mem, old(at), r)
      ensures ok ==>
        PageMapped(boot, old(mem), old(at), old(data), mem, data, r, v, Entry(frame, flags + {Present}), flags)
    {
      var leaf := Entry(frame, flags + {Present});
      var pd: nat;
      ghost var pdpt: nat;
      ok, pdpt, pd := EnsureUpper(r, v / 0x80_0000_0000 % 512, v / 0x4000_0000 % 512, Path(v), leaf, flags);
      if !ok { return; }
      ok := MapBehind(r, v, pdpt, pd, leaf, flags, old(mem), old(at), old(data), old(pool));
      if ok { Makes(old(mem), old(at), r, Path(v), leaf, flags, old(pool)); }
    }

    // The lower half of amd64_map_page_to_dir, which began in state m0, at0.
    method MapBehind(ghost r: nat, v: nat, ghost pdpt: nat, pd: nat, leaf: Entry, flags: set<Flag>, ghost m0: Memory,
                     ghost at0: map<nat, Place>, ghost d0: Data, ghost pool0: seq<nat>)
      returns (ok: bool)
      requires Valid() && PageSize !in flags && Present in leaf.flags && data == d0
      requires ToGo(m0, pool0, r, Path(v), mem, pool, pd, Path(v)[2..], leaf, flags)
      requires OnTheWay(m0, at0, mem, at, data, r, Path(v), flags)
      requires Link(mem, at, r, Path(v)[0], pdpt, flags) && Link(mem, at, pdpt, Path(v)[1], pd, flags) && pd in mem
      requires IsLower(at0[r], Path(v)) ==> Owned(at[pd], r)
      modifies this`mem, this`pool, this`at, this`data
      ensures Arrived(ok, m0, pool0, r, Path(v), mem, pool, leaf, flags)
      ensures ok ==> Valid() && Extends(m0, at0, {}) && (IsLower(at0[r], Path(v)) ==> OthersSame(m0, mem, at0, r))
      ensures ok ==> PageMapped(boot, m0, at0, d0, mem, data, r, v, leaf, flags)
    {
      if {Present, PageSize} <= mem[pd][v / 0x20_0000 % 512].flags {
        LargeOnWay(m0, at0, mem, at, data, r, Path(v), pdpt, pd, flags);
        AtLargePage(m0, pool0, r, Path(v), mem, pool, pd, leaf, flags);
        OverwriteWord(r, v, pd, leaf, flags, m0, at0);
        ok := true;
      } else {
        SmallWay(m0, at0, mem, at, data, r, Path(v), pdpt, pd, flags);
        ok := StorePage(r, v, pdpt, pd, leaf, flags, m0, at0, pool0);
      }
    }

    // What is left to do where no 2 MB page is in the way.
    method StorePage(ghost r: nat, v: nat, ghost pdpt: nat, pd: nat, leaf: Entry, flags: set<Flag>, ghost m0: Memory,
                     ghost at0: map<nat, Place>, ghost pool0: seq<nat>)
      returns (ok: bool)
      requires Valid() && PageSize !in flags && Present in leaf.flags
      requires ToGo(m0, pool0, r, Path(v), mem, pool, pd, Path(v)[2..], leaf, flags)
      requires OnTheWay(m0, at0, mem, at, data, r, Path(v), flags)
      requires Link(mem, at, r, Path(v)[0], pdpt, flags) && Link(mem, at, pdpt, Path(v)[1], pd, flags) && pd in mem
      requires !({Present, PageSize} <= mem[pd][Path(v)[2]].flags)
      requires IsLower(at0[r], Path(v)) ==> Owned(at[pd], r)
      modifies this`mem, this`pool, this`at
      ensures Arrived(ok, m0, pool0, r, Path(v), mem, pool, leaf, flags)
      ensures ok ==> Valid() && Extends(m0, at0, {}) && (IsLower(at0[r], Path(v)) ==> OthersSame(m0, mem, at0, r))
      ensures ok ==> LeafAt(mem, r, Path(v), leaf, flags)
      ensures ok ==> MappedExactly(boot, m0, at0, mem, r, v, leaf, flags)
    {
      var pt: nat;
      ok, pt := EnsureLast(r, v / 0x20_0000 % 512, Path(v), leaf, flags, pdpt, pd, m0, at0, pool0);
      if !ok { return; }
      ChainPlaces(mem, at, r, Path(v), pdpt, pd, pt, flags);
      AtLeaf(m0, pool0, r, Path(v), mem, pool, pt, leaf, flags);
      LeafKeeps(m0, at0, mem, at, data, r, Path(v), flags, pt, leaf);
      StoreLeaf(r, v, pdpt, pd, pt, leaf, flags, m0, at0);
    }

    // amd64_map_page: cr3 holds the boot directory.
    method MapKernelPage(frame: nat, v: nat, flags: set<Flag>) returns (ok: bool)
      requires Valid() && PageSize !in flags && Plain(mem, data, boot.pml4, Path(v)) && Small(mem, boot.pml4, Path(v))
      modifies this`mem, this`pool, this`at, this`data
      ensures Served(ok, old(pool), pool, Missing(old(mem), boot.pml4, Path(v)))
      ensures ok ==> Valid() && Extends(old(mem), old(at), {}) && data == old(data)
      ensures ok ==> MappedExactly(boot, old(mem), old(at), mem, boot.pml4, v, Entry(frame, flags + {Present}), flags)
    {
      ok := MapPage(boot.pml4, frame, v, flags);
    }

    // The last store of amd64_map_page_to_dir, which began in state m0, at0.
    method StoreLeaf(ghost r: nat, v: nat, ghost pdpt: nat, ghost pd: nat, pt: nat, leaf: Entry,
                     ghost flags: set<Flag>, ghost m0: Memory, ghost at0: map<nat, Place>)
      requires Valid() && Before(m0, at0, mem, at, r, flags) && Present in leaf.flags
      requires Chain(mem, at, r, Path(v), pdpt, pd, pt, flags)
      modifies this`mem
      ensures Valid() && mem.Keys == old(mem).Keys && (forall s :: s in mem && s != pt ==> mem[s] == old(mem)[s])
      ensures pt in old(mem) && Path(v)[3] < |old(mem)[pt]| && mem == Store(old(mem), pt, Path(v)[3], leaf)
      ensures pt in mem && Depth(at[pt]) == 3 && at[pt] == old(at)[pt]
      ensures LeafAt(mem, r, Path(v), leaf, flags)
      ensures MappedExactly(boot, m0, at0, mem, r, v, leaf, flags)
    {
      ChainPlaces(mem, at, r, Path(v), pdpt, pd, pt, flags);
      LeafTree(mem, at, pt, v / 0x1000 % 512, leaf);
      LeafShape(mem, at, boot, pt, v / 0x1000 % 512, leaf);
      LeafHere(mem, at, r, Path(v), pdpt, pd, pt, leaf, flags);
      LeafEverywhere(boot, m0, at0, mem, at, r, v, pdpt, pd, pt, leaf, flags);
      mem := Store(mem, pt, v / 0x1000 % 512, leaf);
    }

    // And where one is: a word of the page is taken for an entry.
    method OverwriteWord(ghost r: nat, v: nat, pd: nat, leaf: Entry, flags: set<Flag>, ghost m0: Memory,
                         ghost at0: map<nat, Place>)
      requires Valid() && Before(m0, at0, mem, at, r, flags) && pd in mem && Depth(at[pd]) == 2
      requires var e := mem[pd][Path(v)[2]];
        {Present, PageSize} <= e.flags && e.frame in data && LargeAbove(m0, r, Path(v), e.frame)
      requires IsLower(at0[r], Path(v)) ==> OthersSame(m0, mem, at0, r) && Owned(at[pd], r)
      modifies this`mem, this`data
      ensures Valid() && Extends(m0, at0, {}) && (IsLower(at0[r], Path(v)) ==> OthersSame(m0, mem, at0, r))
      ensures var i, e := Path(v)[2], old(mem)[pd][Path(v)[2]];
        mem == Store(old(mem), pd, i, Entry(e.frame, e.flags + flags))
      ensures !Small(m0, r, Path(v)) && WordOverwritten(m0, at0, old(data), mem, data, r, v, leaf, flags)
    {
      var i, j := v / 0x20_0000 % 512, v / 0x1000 % 512;
      var f := mem[pd][i].frame;
      AddLargeFlags(r, pd, i, flags, m0, at0);
      WriteWord(f, j, leaf);
    }

    method WriteWord(f: nat, j: nat, e: Entry)
      requires Valid() && f in data && j < ENTRIES
      modifies this`data
      ensures Valid() && data == old(data)[f := old(data)[f][j := e]]
    {
      data := data[f := data[f][j := e]];
    }

    // entry |= flags of a 2 MB page
    method AddLargeFlags(ghost r: nat, t: nat, i: nat, flags: set<Flag>, ghost m0: Memory, ghost at0: map<nat, Place>)
      requires Valid() && t in mem && i < ENTRIES && Depth(at[t]) == 2 && {Present, PageSize} <= mem[t][i].flags
      requires Before(m0, at0, mem, at, r, flags)
      modifies this`mem
      ensures Valid() && mem == Store(old(mem), t, i, Entry(old(mem)[t][i].frame, old(mem)[t][i].flags + flags))
      ensures AllBroadened(m0, mem, at0, flags) && Extends(m0, at0, {})
      ensures OthersSame(m0, old(mem), at0, r) && Owned(at[t], r) ==> OthersSame(m0, mem, at0, r)
    {
      var e := Entry(mem[t][i].frame, mem[t][i].flags + flags);
      LargeTree(mem, at, t, i, e);
      LargeShape(mem, at, boot, t, i, e);
      LargeEverywhere(m0, at0, mem, at, r, t, i, flags);
      mem := Store(mem, t, i, e);
    }

    // The first two tables on the way along p, created where they are missing.
    method EnsureUpper(r: nat, i: nat, j: nat, ghost p: seq<nat>, ghost leaf: Entry, flags: set<Flag>)
      returns (ok: bool, pdpt: nat, pd: nat)
      requires Valid() && r in mem && Depth(at[r]) == 0 && PageSize !in flags && Plain(mem, data, r, p)
      requires |p| == 4 && Indices(p) && p[0] == i && p[1] == j
      modifies this`mem, this`pool, this`at
      ensures !ok ==> pool == []
      ensures ok ==> Valid() && OnTheWay(old(mem), old(at), mem, at, data, r, p, flags)
      ensures ok ==> Link(mem, at, r, p[0], pdpt, flags) && Link(mem, at, pdpt, p[1], pd, flags) && pd in mem
      ensures ok && IsLower(old(at)[r], p) ==> Owned(at[pd], r)
      ensures Coming(ok, old(mem), old(pool), r, p, mem, pool, pd, p[2..], leaf, flags)
    {
      SameWalks(mem, at, flags);
      pd := 0;
      ok, pdpt := NextTable(r, i, flags, old(mem), old(at), r, p);
      OneMore(old(mem), old(pool), r, p, old(mem), old(pool), r, p, leaf, flags, ok, mem, pool, pdpt);
      if !ok { return; }
      ok, pd := EnsureSecond(r, j, p, leaf, flags, pdpt, old(mem), old(at), old(pool));
    }

    method EnsureSecond(ghost r: nat, j: nat, ghost p: seq<nat>, ghost leaf: Entry, flags: set<Flag>, pdpt: nat,
                        ghost m0: Memory, ghost at0: map<nat, Place>, ghost pool0: seq<nat>)
      returns (ok: bool, pd: nat)
      requires Valid() && PageSize !in flags && OnTheWay(m0, at0, mem, at, data, r, p, flags) && p[1] == j
      requires Link(mem, at, r, p[0], pdpt, flags) && pdpt in mem && (IsLower(at0[r], p) ==> Owned(at[pdpt], r))
      requires ToGo(m0, pool0, r, p, mem, pool, pdpt, p[1..], leaf, flags)
      modifies this`mem, this`pool, this`at
      ensures !ok ==> pool == []
      ensures ok ==> Valid() && OnTheWay(m0, at0, mem, at, data, r, p, flags)
      ensures ok ==> Link(mem, at, r, p[0], pdpt, flags) && Link(mem, at, pdpt, p[1], pd, flags) && pd in mem
      ensures ok && IsLower(at0[r], p) ==> Owned(at[pd], r)
      ensures Coming(ok, m0, pool0, r, p, mem, pool, pd, p[2..], leaf, flags)
    {
      SecondSmall(mem, data, r, p, pdpt);
      ghost var m, ats, left := mem, at, pool;
      ok, pd := NextTable(pdpt, j, flags, m0, at0, r, p);
      OneMore(m0, pool0, r, p, m, left, pdpt, p[1..], leaf, flags, ok, mem, pool, pd);
      assert p[1..][1..] == p[2..];
      if !ok { return; }
      LinkKept(m, ats, mem, at, r, p[0], pdpt, flags, pdpt);
    }

    // The third, where no 2 MB page is in the way.
    method EnsureLast(ghost r: nat, k: nat, ghost p: seq<nat>, ghost leaf: Entry, flags: set<Flag>, ghost pdpt: nat,
                      pd: nat, ghost m0: Memory, ghost at0: map<nat, Place>, ghost pool0: seq<nat>)
      returns (ok: bool, pt: nat)
      requires Valid() && PageSize !in flags && OnTheWay(m0, at0, mem, at, data, r, p, flags) && p[2] == k
      requires Link(mem, at, r, p[0], pdpt, flags) && Link(mem, at, pdpt, p[1], pd, flags) && pd in mem
      requires !({Present, PageSize} <= mem[pd][p[2]].flags)
      requires IsLower(at0[r], p) ==> Owned(at[pd], r)
      requires ToGo(m0, pool0, r, p, mem, pool, pd, p[2..], leaf, flags)
      modifies this`mem, this`pool, this`at
      ensures !ok ==> pool == []
      ensures Coming(ok, m0, pool0, r, p, mem, pool, pt, p[3..], leaf, flags)
      ensures ok ==> Valid() && Extends(old(mem), old(at), {}) && OnTheWay(m0, at0, mem, at, data, r, p, flags)
      ensures ok ==> Chain(mem, at, r, p, pdpt, pd, pt, flags) && (IsLower(at0[r], p) ==> Owned(at[pt], r))
    {
      ghost var m, ats, left := mem, at, pool;
      ok, pt := NextTable(pd, k, flags, m0, at0, r, p);
      OneMore(m0, pool0, r, p, m, left, pd, p[2..], leaf, flags, ok, mem, pool, pt);
      assert p[2..][1..] == p[3..];
      if !ok { return; }
      LinkKept(m, ats, mem, at, r, p[0], pdpt, flags, pd);
      LinkKept(m, ats, mem, at, pdpt, p[1], pd, flags, pd);
    }

    // EnsureTable, on the way from r along p that began in state m0, at0.
    method NextTable(t: nat, i: nat, flags: set<Flag>, ghost m0: Memory, ghost at0: map<nat, Place>, ghost r: nat,
                     ghost p: seq<nat>)
      returns (ok: bool, next: nat)
      requires Valid() && OnTheWay(m0, at0, mem, at, data, r, p, flags)
      requires t in mem && i < ENTRIES && Depth(at[t]) < 3 && PageSize !in flags
      requires Present in mem[t][i].flags ==> LeadsOn(at[t], mem[t][i])
      requires IsLower(at0[r], p) ==> Owned(at[t], r) && (Depth(at[t]) == 0 ==> i != 511)
      modifies this`mem, this`pool, this`at
      ensures !ok ==> pool == []
      ensures ok ==> Valid() && OnTheWay(m0, at0, mem, at, data, r, p, flags)
      ensures ok ==> Link(mem, at, t, i, next, flags) && next in mem && (IsLower(at0[r], p) ==> Owned(at[next], r))
      ensures ok ==> KeptBut(old(mem), old(at), mem, at, t)
      ensures OpensExactly(ok, old(mem), old(pool), mem, pool, t, i, next, flags)
    {
      ghost var m, ats := mem, at;
      ok, next := EnsureTable(t, i, flags);
      if !ok { return; }
      WidenedTwice(m0, m, mem, at0, ats, flags);
      StillSmall(m0, mem, at0, data, r, p, flags);
    }
  }

  // No frame of the pool is in use, and tables and data pages are different.
  ghost predicate Spare(m: Memory, d: Data, pool: seq<nat>) {
    && Fresh(m, pool)
    && (forall f :: f in d ==> |d[f]| == ENTRIES && f !in m && f !in pool)
  }

  // At most slot i of table t has got a new entry, which widens walks.
  ghost predicate Ensured(m: Memory, at: map<nat, Place>, w: Memory, atw: map<nat, Place>, t: nat, i: nat,
                          flags: set<Flag>) {
    && Extended(m, at, w, atw, {}) && WalksWidened(m, w, at, flags) && KeptBut(m, at, w, atw, t)
    && t in m && t in w && |m[t]| == |w[t]| == ENTRIES
    && (forall j :: 0 <= j < ENTRIES && j != i ==> w[t][j] == m[t][j])
  }

  lemma {:induction false} EnsuredSame(m: Memory, at: map<nat, Place>, t: nat, i: nat, flags: set<Flag>)
    requires Tree(m, at) && t in m
    ensures Ensured(m, at, m, at, t, i, flags)
  {
    SameWalks(m, at, flags);
  }

  lemma {:induction false} EnsuredFlags(m0: Memory, at0: map<nat, Place>, m: Memory, w: Memory, at: map<nat, Place>,
                                        t: nat, i: nat, flags: set<Flag>)
    requires Ensured(m0, at0, m, at, t, i, flags) && i < ENTRIES && at0.Keys == m0.Keys
    requires w == Store(m, t, i, Entry(m[t][i].frame, m[t][i].flags + flags)) && WalksWidened(m, w, at, flags)
    ensures Ensured(m0, at0, w, at, t, i, flags)
  {
    WidenedTwice(m0, m, w, at0, at, flags);
  }

  // All tables have kept their places, and all but t their entries.
  ghost predicate KeptBut(m: Memory, at: map<nat, Place>, w: Memory, atw: map<nat, Place>, t: nat) {
    forall s :: s in m ==> s in at && s in atw && atw[s] == at[s] && (s != t ==> s in w && w[s] == m[s])
  }

  lemma {:induction false} LinkKept(m: Memory, at: map<nat, Place>, w: Memory, atw: map<nat, Place>, t: nat, i: nat,
                                    next: nat, flags: set<Flag>, u: nat)
    requires KeptBut(m, at, w, atw, u) && Link(m, at, t, i, next, flags) && t != u && next in m
    ensures Link(w, atw, t, i, next, flags)
  {
  }

  ghost predicate Extended(m: Memory, ats: map<nat, Place>, w: Memory, atw: map<nat, Place>, dirs: set<nat>) {
    && (forall s :: s in m && s in ats ==> s in w && s in atw && atw[s] == ats[s])
    && (forall s :: s in atw && Depth(atw[s]) == 0 ==> s in ats || s in dirs)
  }

  // The state m, at comes from m0, at0 by tables added on the way from r.
  ghost predicate Before(m0: Memory, at0: map<nat, Place>, m: Memory, at: map<nat, Place>, r: nat, flags: set<Flag>) {
    && at0.Keys == m0.Keys && r in m0 && Depth(at0[r]) == 0
    && Extended(m0, at0, m, at, {}) && WalksWidened(m0, m, at0, flags)
  }

  // The same, while the way along p is being completed.
  ghost predicate OnTheWay(m0: Memory, at0: map<nat, Place>, m: Memory, at: map<nat, Place>, d: Data, r: nat,
                           p: seq<nat>, flags: set<Flag>) {
    && Before(m0, at0, m, at, r, flags) && |p| == 4 && Indices(p)
    && Plain(m0, d, r, p) && Plain(m, d, r, p)
    && (IsLower(at0[r], p) ==> OthersSame(m0, m, at0, r))
  }

  // The path leads into the tree of a directory, not into the kernel's tables.
  predicate IsLower(l: Place, p: seq<nat>)
    requires p != []
  {
    l.Lower? && p[0] != 511
  }

  lemma {:induction false} SameWalks(m: Memory, at: map<nat, Place>, flags: set<Flag>)
    ensures WalksWidened(m, m, at, flags)
  {
  }

  // r leads through the indices p to the tables t1, t2 and t3, and all entries
  // on the way carry flags.
  ghost predicate Chain(m: Memory, at: map<nat, Place>, r: nat, p: seq<nat>, t1: nat, t2: nat, t3: nat,
                        flags: set<Flag>)
    requires |p| == 4
  {
    && Link(m, at, r, p[0], t1, flags) && Link(m, at, t1, p[1], t2, flags) && Link(m, at, t2, p[2], t3, flags)
    && t3 in m && t3 in at && |m[t3]| == ENTRIES
  }

  ghost predicate Link(m: Memory, at: map<nat, Place>, t: nat, i: nat, next: nat, flags: set<Flag>) {
    && t in m && t in at && i < |m[t]| && next in at
    && LeadsOn(at[t], m[t][i]) && m[t][i].frame == next && at[next] == Under(at[t], i)
    && flags <= m[t][i].flags
  }

  // The tables of other directories, the kernel's, and slot 511 are unchanged.
  ghost predicate OthersSame(m: Memory, w: Memory, at: map<nat, Place>, r: nat) {
    && (forall s :: s in m && s in at && !Owned(at[s], r) ==> s in w && w[s] == m[s])
    && (r in m && |m[r]| == ENTRIES ==> r in w && |w[r]| == ENTRIES && w[r][511] == m[r][511])
  }

  // A table of the directory r below slot 511, or r itself.
  predicate Owned(l: Place, r: nat) {
    l.Lower? && l.pml4 == r
  }

  // What amd64_map_page_to_dir does to the tables and to data pages.
  ghost predicate PageMapped(b: Boot, m: Memory, at: map<nat, Place>, d: Data, w: Memory, e: Data, r: nat, v: nat,
                             leaf: Entry, flags: set<Flag>) {
    if Small(m, r, Path(v)) then
      e == d && LeafAt(w, r, Path(v), leaf, flags) && MappedExactly(b, m, at, w, r, v, leaf, flags)
    else
      WordOverwritten(m, at, d, w, e, r, v, leaf, flags)
  }

  ghost predicate WordOverwritten(m: Memory, at: map<nat, Place>, d: Data, w: Memory, e: Data, r: nat, v: nat,
                                  leaf: Entry, flags: set<Flag>) {
    var x, j := Walk(m, r, Path(v)), Path(v)[3];
    && x.Map? && x.entry.frame in d && j < |d[x.entry.frame]|
    && e == d[x.entry.frame := d[x.entry.frame][j := leaf]] && AllBroadened(m, w, at, flags)
  }

  // After the page of v was mapped in r exactly its aliases end in the leaf; all
  // other pages of all directories are as they were.
  ghost predicate MappedExactly(b: Boot, m: Memory, at: map<nat, Place>, w: Memory, r: nat, v: nat, leaf: Entry,
                                flags: set<Flag>) {
    forall s, x: nat :: s in m && s in at && Depth(at[s]) == 0 ==> MappedAt(b, m, w, r, v, leaf, flags, s, Path(x))
  }

  ghost predicate MappedAt(b: Boot, m: Memory, w: Memory, r: nat, v: nat, leaf: Entry, flags: set<Flag>, s: nat,
                           q: seq<nat>)
    requires |q| == 4
  {
    if Alias(b, r, Path(v), s, q) then
      s in w && |w[s]| == ENTRIES && q[0] < ENTRIES && LeafAt(w, s, q, leaf, flags * w[s][q[0]].flags)
    else
      Widened(Walk(m, s, q), Walk(w, s, q), flags)
  }

  // The second walk ends where the first does, but the leaf and the entries on
  // the way may have got flags.
  predicate Broadened(a: Translation, b: Translation, flags: set<Flag>) {
    match a
    case Fault => b == Fault
    case Map(e, above, rest) =>
      && b.Map? && b.entry.frame == e.frame && b.rest == rest
      && e.flags <= b.entry.flags <= e.flags + flags && above <= b.above <= above + flags
  }

  ghost predicate AllBroadened(m: Memory, w: Memory, at: map<nat, Place>, flags: set<Flag>) {
    forall s, x: nat :: s in m && s in at && Depth(at[s]) == 0 ==>
      Broadened(Walk(m, s, Path(x)), Walk(w, s, Path(x)), flags)
  }

  lemma {:induction false} StillSmall(m: Memory, w: Memory, at: map<nat, Place>, d: Data, r: nat, p: seq<nat>,
                                      flags: set<Flag>)
    requires WalksWidened(m, w, at, flags) && r in m && r in at && Depth(at[r]) == 0 && |p| == 4 && Indices(p)
    ensures Small(w, r, p) == Small(m, r, p) && (Plain(m, d, r, p) ==> Plain(w, d, r, p))
    ensures SameTarget(Walk(m, r, p), Walk(w, r, p))
  {
    assert Widened(Walk(m, r, p), Walk(w, r, p), flags);
  }

  // A new table changes no walk.
  lemma {:induction false} GrowWidens(m: Memory, at: map<nat, Place>, t: nat, i: nat, f: nat, flags: set<Flag>,
                                      more: set<Flag>)
    requires Tree(m, at) && t in m && i < ENTRIES && Depth(at[t]) < 3 && Present !in m[t][i].flags
    requires f !in m && Present in flags && PageSize !in flags
    ensures WalksWidened(m, Grow(m, t, i, f, flags), at, more)
  {
    forall s, p | s in m && s in at && Indices(p) && Depth(at[s]) + |p| == 4
      ensures Widened(Walk(m, s, p), Walk(Grow(m, t, i, f, flags), s, p), more)
    {
      GrowWalk(m, at, t, i, f, flags, s, p);
    }
  }

  // No 1 GB page is in the second table.
  lemma {:induction false} SecondSmall(m: Memory, d: Data, r: nat, p: seq<nat>, t1: nat)
    requires |p| == 4 && Plain(m, d, r, p) && r in m && p[0] < |m[r]|
    requires Present in m[r][p[0]].flags && m[r][p[0]].frame == t1
    requires t1 in m && p[1] < |m[t1]|
    ensures Present in m[t1][p[1]].flags ==> PageSize !in m[t1][p[1]].flags
  {
    assert p[1..][0] == p[1];
    var x := Walk(m, t1, p[1..]);
  }

  // The walk that reaches the third table ends there in a 2 MB page, or it ends
  // in no large page.
  lemma {:induction false} LargeHere(m: Memory, at: map<nat, Place>, r: nat, p: seq<nat>, t1: nat, t2: nat,
                                     flags: set<Flag>)
    requires |p| == 4 && Link(m, at, r, p[0], t1, flags) && Link(m, at, t1, p[1], t2, flags) && Depth(at[r]) == 0
    requires t2 in m && p[2] < |m[t2]| && {Present, PageSize} <= m[t2][p[2]].flags
    ensures var x := Walk(m, r, p); x.Map? && x.entry == m[t2][p[2]] && x.rest == 1
  {
    var q := p[1..];
    assert q[0] == p[1] && q[1..][0] == p[2] && |q[1..]| == 2;
    assert Walk(m, t2, q[1..]) == Map(m[t2][p[2]], ALL_FLAGS, 1);
    var y := Walk(m, t1, q);
    assert y.Map? && y.entry == m[t2][p[2]] && y.rest == 1;
  }

  // The path leads to a large page at frame f.
  ghost predicate LargeAbove(m: Memory, r: nat, p: seq<nat>, f: nat) {
    !Small(m, r, p) && Walk(m, r, p).entry.frame == f
  }

  lemma {:induction false} LargeOnWay(m0: Memory, at0: map<nat, Place>, m: Memory, at: map<nat, Place>, d: Data,
                                      r: nat, p: seq<nat>, t1: nat, t2: nat, flags: set<Flag>)
    requires OnTheWay(m0, at0, m, at, d, r, p, flags)
    requires Link(m, at, r, p[0], t1, flags) && Link(m, at, t1, p[1], t2, flags)
    requires t2 in m && p[2] < |m[t2]| && {Present, PageSize} <= m[t2][p[2]].flags
    ensures m[t2][p[2]].frame in d && LargeAbove(m0, r, p, m[t2][p[2]].frame)
  {
    LargeHere(m, at, r, p, t1, t2, flags);
    StillSmall(m0, m, at0, d, r, p, flags);
  }

  lemma {:induction false} SmallWay(m0: Memory, at0: map<nat, Place>, m: Memory, at: map<nat, Place>, d: Data, r: nat,
                                    p: seq<nat>, t1: nat, t2: nat, flags: set<Flag>)
    requires OnTheWay(m0, at0, m, at, d, r, p, flags)
    requires Link(m, at, r, p[0], t1, flags) && Link(m, at, t1, p[1], t2, flags)
    requires t2 in m && p[2] < |m[t2]| && !({Present, PageSize} <= m[t2][p[2]].flags)
    ensures Small(m0, r, p)
  {
    SmallHere(m, at, r, p, t1, t2, flags);
    StillSmall(m0, m, at0, d, r, p, flags);
  }

  lemma {:induction false} SmallHere(m: Memory, at: map<nat, Place>, r: nat, p: seq<nat>, t1: nat, t2: nat,
                                     flags: set<Flag>)
    requires |p| == 4 && Link(m, at, r, p[0], t1, flags) && Link(m, at, t1, p[1], t2, flags) && Depth(at[r]) == 0
    requires t2 in m && p[2] < |m[t2]| && !({Present, PageSize} <= m[t2][p[2]].flags)
    ensures Small(m, r, p)
  {
    var q := p[1..];
    assert q[0] == p[1] && q[1..][0] == p[2] && |q[1..]| == 2;
    var x, y, z := Walk(m, t2, q[1..]), Walk(m, t1, q), Walk(m, m[t2][p[2]].frame, q[1..][1..]);
    assert z.Map? ==> z.rest == 0;
    assert x.Map? ==> x.rest == 0;
    assert y.Map? ==> y.rest == 0;
  }

  // The walk along a chain ends in the slot of its last table.
  lemma {:induction false} ChainWalk(m: Memory, at: map<nat, Place>, r: nat, p: seq<nat>, t1: nat, t2: nat, t3: nat,
                                     flags: set<Flag>)
    requires |p| == 4 && Indices(p) && Chain(m, at, r, p, t1, t2, t3, flags) && Depth(at[r]) == 0
    requires Present in m[t3][p[3]].flags
    ensures var x := Walk(m, r, p); x.Map? && x.entry == m[t3][p[3]] && x.rest == 0 && flags <= x.above
  {
    var q := p[1..];
    assert q[0] == p[1] && q[1..][0] == p[2] && q[1..][1..] == [p[3]];
    assert Walk(m, t3, [p[3]]) == Map(m[t3][p[3]], ALL_FLAGS, 0);
    var y := Walk(m, t2, q[1..]);
    assert y.Map? && y.entry == m[t3][p[3]] && y.rest == 0 && flags <= y.above by { EveryFlag(flags); }
    var z := Walk(m, t1, q);
    assert z.Map? && z.entry == y.entry && z.rest == 0 && flags <= z.above;
  }

  lemma {:induction false} EveryFlag(flags: set<Flag>)
    ensures flags <= ALL_FLAGS
  {
    forall f | f in flags ensures f in ALL_FLAGS {
      match f
      case Present => case ReadWrite => case User => case WriteThrough => case CacheDisable => case Accessed =>
      case Dirty => case PageSize => case Global => case Cow => case Spare10 => case Spare11 =>
    }
  }

  ghost predicate LeafAt(m: Memory, r: nat, p: seq<nat>, leaf: Entry, flags: set<Flag>) {
    var x := Walk(m, r, p);
    x.Map? && x.entry == leaf && x.rest == 0 && flags <= x.above
  }

  lemma {:induction false} LeafHere(m: Memory, at: map<nat, Place>, r: nat, p: seq<nat>, t1: nat, t2: nat, t3: nat,
                                    leaf: Entry, flags: set<Flag>)
    requires Tree(m, at) && at.Keys == m.Keys && |p| == 4 && Indices(p)
    requires Chain(m, at, r, p, t1, t2, t3, flags) && Depth(at[r]) == 0 && Present in leaf.flags
    ensures LeafAt(Store(m, t3, p[3], leaf), r, p, leaf, flags)
  {
    ChainPlaces(m, at, r, p, t1, t2, t3, flags);
    ChainWalk(Store(m, t3, p[3], leaf), at, r, p, t1, t2, t3, flags);
  }

  lemma {:induction false} LeafKeeps(m0: Memory, at0: map<nat, Place>, m: Memory, at: map<nat, Place>, d: Data, r: nat,
                                     p: seq<nat>, flags: set<Flag>, t: nat, leaf: Entry)
    requires OnTheWay(m0, at0, m, at, d, r, p, flags) && t in m && t in at && |m[t]| == ENTRIES
    requires (IsLower(at0[r], p) ==> Owned(at[t], r)) && Depth(at[t]) == 3
    ensures var w := Store(m, t, p[3], leaf);
      Extended(m0, at0, w, at, {}) && (IsLower(at0[r], p) ==> OthersSame(m0, w, at0, r))
  {
  }

  // The leaf ends the walks of the aliases, and of no other page.
  lemma {:induction false} LeafEverywhere(b: Boot, m0: Memory, at0: map<nat, Place>, m: Memory, at: map<nat, Place>,
                                          r: nat, v: nat, t1: nat, t2: nat, t3: nat, leaf: Entry, flags: set<Flag>)
    requires Tree(m, at) && Shape(m, at, b) && Before(m0, at0, m, at, r, flags)
    requires Chain(m, at, r, Path(v), t1, t2, t3, flags) && Present in leaf.flags
    ensures MappedExactly(b, m0, at0, Store(m, t3, Path(v)[3], leaf), r, v, leaf, flags)
  {
    var p := Path(v);
    var w := Store(m, t3, p[3], leaf);
    ChainPlaces(m, at, r, p, t1, t2, t3, flags);
    ChainWay(m, at, r, p, t1, t2, t3, flags);
    forall s, x: nat | s in m0 && s in at0 && Depth(at0[s]) == 0
      ensures MappedAt(b, m0, w, r, v, leaf, flags, s, Path(x))
    {
      AliasExactly(m, at, b, r, p, s, Path(x), t3);
      if Alias(b, r, p, s, Path(x)) {
        AliasLeaf(b, m, at, r, p, t1, t2, t3, s, Path(x), leaf, flags);
      } else {
        assert Widened(Walk(m0, s, Path(x)), Walk(m, s, Path(x)), flags);
        LeafWalk(m, at, t3, p[3], leaf, s, Path(x));
      }
    }
  }

  lemma {:induction false} ChainWay(m: Memory, at: map<nat, Place>, r: nat, p: seq<nat>, t1: nat, t2: nat, t3: nat,
                                    flags: set<Flag>)
    requires |p| == 4 && Indices(p) && Chain(m, at, r, p, t1, t2, t3, flags) && Depth(at[r]) == 0
    ensures Way(m, at, r, p, t1, t2, t3) && LastTable(m, at, r, p) == Some(t3)
  {
    WayEnds(m, at, r, p, t1, t2, t3);
  }

  lemma {:induction false} AliasLeaf(b: Boot, m: Memory, at: map<nat, Place>, r: nat, p: seq<nat>, t1: nat, t2: nat,
                                     t3: nat, s: nat, q: seq<nat>, leaf: Entry, flags: set<Flag>)
    requires Tree(m, at) && Shape(m, at, b) && |p| == |q| == 4 && Indices(p) && Indices(q)
    requires Chain(m, at, r, p, t1, t2, t3, flags) && Depth(at[r]) == 0 && Present in leaf.flags
    requires s in m && Depth(at[s]) == 0 && Alias(b, r, p, s, q)
    ensures var w := Store(m, t3, p[3], leaf);
      s in w && |w[s]| == ENTRIES && LeafAt(w, s, q, leaf, flags * w[s][q[0]].flags)
  {
    ChainPlaces(m, at, r, p, t1, t2, t3, flags);
    ChainWay(m, at, r, p, t1, t2, t3, flags);
    AliasWay(m, at, b, r, p, t1, t2, s, q, t3);
    assert q[1..] == p[1..] && q[1..][0] == p[1..][0] && q[1..][1] == p[1..][1] && q[1..][2] == p[1..][2];
    assert Hangs(m, at, s, q[0]);
    LeafHere(m, at, s, q, t1, t2, t3, leaf, flags * m[s][q[0]].flags);
  }

  // ----- Stores that keep the shape of the kernel's tables

  lemma {:induction false} OrShape(m: Memory, at: map<nat, Place>, b: Boot, t: nat, i: nat, flags: set<Flag>)
    requires Tree(m, at) && Shape(m, at, b) && t in m && i < ENTRIES && LeadsOn(at[t], m[t][i]) && PageSize !in flags
    ensures Shape(Store(m, t, i, Entry(m[t][i].frame, m[t][i].flags + flags)), at, b)
  {
    var w := Store(m, t, i, Entry(m[t][i].frame, m[t][i].flags + flags));
    forall x, j, f ensures Leads(w, at, x, j, f) <==> Leads(m, at, x, j, f) {}
    ShapeKept(m, at, w, b);
  }

  lemma {:induction false} LeafShape(m: Memory, at: map<nat, Place>, b: Boot, t: nat, i: nat, e: Entry)
    requires Tree(m, at) && Shape(m, at, b) && t in m && i < ENTRIES && Depth(at[t]) == 3
    ensures Shape(Store(m, t, i, e), at, b)
  {
    var w := Store(m, t, i, e);
    forall x, j, f ensures Leads(w, at, x, j, f) <==> Leads(m, at, x, j, f) {}
    ShapeKept(m, at, w, b);
  }

  lemma {:induction false} LargeShape(m: Memory, at: map<nat, Place>, b: Boot, t: nat, i: nat, e: Entry)
    requires Tree(m, at) && Shape(m, at, b) && t in m && i < ENTRIES && Depth(at[t]) == 2
    requires {Present, PageSize} <= e.flags
    ensures Shape(Store(m, t, i, e), at, b)
  {
    var w := Store(m, t, i, e);
    forall x, j, f | Leads(w, at, x, j, f) ensures Leads(m, at, x, j, f) {}
    assert Hangs(m, at, t, i);
    ShapeKept(m, at, w, b);
  }

  lemma {:induction false} LargeTree(m: Memory, at: map<nat, Place>, t: nat, i: nat, e: Entry)
    requires Tree(m, at) && t in m && i < ENTRIES && Depth(at[t]) == 2 && PageSize in e.flags
    ensures Tree(Store(m, t, i, e), at)
  {
    var w := Store(m, t, i, e);
    forall s, j | s in w && 0 <= j < ENTRIES ensures Hangs(w, at, s, j) { assert Hangs(m, at, s, j); }
  }

  // Flags added to the entry of a 2 MB page.
  lemma {:induction false} LargeWalk(m: Memory, at: map<nat, Place>, t: nat, i: nat, flags: set<Flag>, s: nat,
                                     p: seq<nat>)
    requires Tree(m, at) && t in m && i < ENTRIES && Depth(at[t]) == 2 && {Present, PageSize} <= m[t][i].flags
    requires s in m && Indices(p) && Depth(at[s]) + |p| == 4
    ensures Broadened(Walk(m, s, p), Walk(Store(m, t, i, Entry(m[t][i].frame, m[t][i].flags + flags)), s, p), flags)
    decreases |p|
  {
    if |p| > 1 && LeadsOn(at[s], m[s][p[0]]) {
      assert Hangs(m, at, s, p[0]);
      LargeWalk(m, at, t, i, flags, m[s][p[0]].frame, p[1..]);
    }
  }

  lemma {:induction false} LargeEverywhere(m0: Memory, at0: map<nat, Place>, m: Memory, at: map<nat, Place>, r: nat,
                                           t: nat, i: nat, flags: set<Flag>)
    requires Tree(m, at) && Before(m0, at0, m, at, r, flags)
    requires t in m && i < ENTRIES && Depth(at[t]) == 2 && {Present, PageSize} <= m[t][i].flags
    ensures AllBroadened(m0, Store(m, t, i, Entry(m[t][i].frame, m[t][i].flags + flags)), at0, flags)
  {
    var w := Store(m, t, i, Entry(m[t][i].frame, m[t][i].flags + flags));
    forall s, x: nat | s in m0 && s in at0 && Depth(at0[s]) == 0
      ensures Broadened(Walk(m0, s, Path(x)), Walk(w, s, Path(x)), flags)
    {
      assert Widened(Walk(m0, s, Path(x)), Walk(m, s, Path(x)), flags);
      LargeWalk(m, at, t, i, flags, s, Path(x));
    }
  }

  // The tables of a chain have the places of its indices.
  lemma {:induction false} ChainPlaces(m: Memory, at: map<nat, Place>, r: nat, p: seq<nat>, t1: nat, t2: nat, t3: nat,
                                       flags: set<Flag>)
    requires |p| == 4 && Chain(m, at, r, p, t1, t2, t3, flags) && Depth(at[r]) == 0
    ensures Depth(at[t1]) == 1 && Depth(at[t2]) == 2 && Depth(at[t3]) == 3
    ensures at[r] == Lower(r, []) && p[0] != 511 ==> at[t3] == Lower(r, p[..3])
    ensures at[r] == Lower(r, []) && p[0] == 511 ==> at[t3] == Kernel(3)
  {
    assert [] + [p[0]] == p[..1] && p[..1] + [p[1]] == p[..2] && p[..2] + [p[2]] == p[..3];
  }
}
