// How many tables the calls of src/arch/amd64/mmu.c take from the pool.
module TableCounts {
  import opened PageTables
  import opened TableWays

  // All tables that can be reached from one at l are unchanged.
  ghost predicate SameBelow(m: Memory, w: Memory, at: map<nat, Place>, l: Place) {
    forall x :: x in m && x in at && Reaches(l, at[x]) ==> x in w && w[x] == m[x]
  }

  lemma {:induction false} SameUnder(m: Memory, w: Memory, at: map<nat, Place>, l: Place, i: nat)
    requires SameBelow(m, w, at, l)
    ensures SameBelow(m, w, at, Under(l, i))
  {
    forall x | x in m && x in at && Reaches(Under(l, i), at[x]) ensures x in w && w[x] == m[x] {
      ReachesUnder(l, i, at[x]);
    }
  }

  lemma {:induction false} SameMissing(m: Memory, w: Memory, at: map<nat, Place>, t: nat, p: seq<nat>)
    requires Tree(m, at) && t in m && Indices(p) && Depth(at[t]) + |p| == 4 && SameBelow(m, w, at, at[t])
    ensures Missing(w, t, p) == Missing(m, t, p)
    decreases |p|
  {
    if |p| > 1 && LeadsOn(at[t], m[t][p[0]]) {
      assert Hangs(m, at, t, p[0]);
      SameUnder(m, w, at, at[t], p[0]);
      SameMissing(m, w, at, m[t][p[0]].frame, p[1..]);
    }
  }

  // ----- The tables of a directory of devices

  // Once the way along p is there, one along q misses no more than what lies
  // behind the indices in common.
  lemma {:induction false} MissingAfter(m: Memory, at: map<nat, Place>, t: nat, p: seq<nat>, leaf: Entry,
                                        flags: set<Flag>, pool: seq<nat>, q: seq<nat>)
    requires Tree(m, at) && t in m && p != [] && Indices(p) && Indices(q) && |p| == |q| && Depth(at[t]) + |p| == 4
    requires at[t].Lower? && (|p| == 4 ==> p[0] != 511 && q[0] != 511)
    requires Fresh(m, pool) && PageSize !in flags && Missing(m, t, p) <= |pool|
    ensures Missing(Mapped(m, t, p, leaf, flags, pool), t, q) == Less(Missing(m, t, q), |p| - 1 - Shared(p, q))
    decreases |p|
  {
    if |p| > 1 {
      if p[0] != q[0] {
        Aside(m, at, t, p, leaf, flags, pool, q);
      } else if Present !in m[t][p[0]].flags {
        AfterNew(m, at, t, p, leaf, flags, pool, q);
      } else if LeadsOn(at[t], m[t][p[0]]) {
        AfterOld(m, at, t, p, leaf, flags, pool, q);
      }
    }
  }

  // A way through another slot is as it was.
  lemma {:induction false} Aside(m: Memory, at: map<nat, Place>, t: nat, p: seq<nat>, leaf: Entry, flags: set<Flag>,
                                 pool: seq<nat>, q: seq<nat>)
    requires Tree(m, at) && t in m && |p| > 1 && Indices(p) && Indices(q) && |p| == |q| && Depth(at[t]) + |p| == 4
    requires at[t].Lower? && (|p| == 4 ==> p[0] != 511 && q[0] != 511) && p[0] != q[0]
    requires Fresh(m, pool) && PageSize !in flags && Missing(m, t, p) <= |pool|
    ensures Missing(Mapped(m, t, p, leaf, flags, pool), t, q) == Missing(m, t, q)
  {
    var w := Mapped(m, t, p, leaf, flags, pool);
    Makes(m, at, t, p, leaf, flags, pool);
    assert OldEntry(m, at, w, t, p, leaf, flags, pool, t, q[0]);
    if OnWay(m, t, p, t, q[0]) { OnWayBelow(m, at, t, p, t, q[0]); }
    if LeadsOn(at[t], m[t][q[0]]) {
      assert Hangs(m, at, t, q[0]);
      var c := m[t][q[0]].frame;
      forall x | x in m && Reaches(at[c], at[x]) ensures x in w && w[x] == m[x] {
        forall i | 0 <= i < ENTRIES ensures !OnWay(m, t, p, x, i) {
          if OnWay(m, t, p, x, i) {
            OnWayBelow(m, at, t, p, x, i);
            Apart(at[t], p[0], q[0], at[x]);
          }
        }
        OffTheWay(m, at, w, t, p, leaf, flags, pool, x);
      }
      SameMissing(m, w, at, c, q[1..]);
    }
  }

  lemma {:induction false} OffTheWay(m: Memory, at: map<nat, Place>, w: Memory, t: nat, p: seq<nat>, leaf: Entry,
                                     flags: set<Flag>, pool: seq<nat>, x: nat)
    requires Missing(m, t, p) <= |pool| && at.Keys == m.Keys && MadeExactly(m, at, w, t, p, leaf, flags, pool)
    requires x in m && |m[x]| == ENTRIES && forall i :: 0 <= i < ENTRIES ==> !OnWay(m, t, p, x, i)
    ensures x in w && w[x] == m[x]
  {
    forall i | 0 <= i < ENTRIES ensures x in w && |w[x]| == ENTRIES && w[x][i] == m[x][i] {
      assert OldEntry(m, at, w, t, p, leaf, flags, pool, x, i);
    }
    assert x in w && |w[x]| == ENTRIES by { assert OldEntry(m, at, w, t, p, leaf, flags, pool, x, 0); }
  }

  // No table is behind two slots.
  lemma {:induction false} Apart(l: Place, i: nat, k: nat, x: Place)
    requires l.Lower? && i != k && (l.path == [] ==> i != 511 && k != 511) && Reaches(Under(l, k), x)
    ensures !Reaches(Under(l, i), x) && x != l
  {
    assert Under(l, k).path[|l.path|] == k && Under(l, i).path[|l.path|] == i;
    assert x.path[|l.path|] == k;
  }

  lemma {:induction false} AfterOld(m: Memory, at: map<nat, Place>, t: nat, p: seq<nat>, leaf: Entry, flags: set<Flag>,
                                    pool: seq<nat>, q: seq<nat>)
    requires Tree(m, at) && t in m && |p| > 1 && Indices(p) && Indices(q) && |p| == |q| && Depth(at[t]) + |p| == 4
    requires at[t].Lower? && (|p| == 4 ==> p[0] != 511) && p[0] == q[0] && LeadsOn(at[t], m[t][p[0]])
    requires Fresh(m, pool) && PageSize !in flags && Missing(m, t, p) <= |pool|
    ensures Missing(Mapped(m, t, p, leaf, flags, pool), t, q) == Less(Missing(m, t, q), |p| - 1 - Shared(p, q))
    decreases |p|, 0
  {
    var w, c := Opened(m, t, p[0], flags, pool), m[t][p[0]].frame;
    OrTree(m, at, t, p[0], flags);
    assert Hangs(m, at, t, p[0]);
    OrMissing(m, t, p[0], flags, c, p[1..]);
    OrMissing(m, t, p[0], flags, c, q[1..]);
    MissingAfter(w, at, c, p[1..], leaf, flags, pool, q[1..]);
    SlotStays(w, at, t, p[0], p[1..], leaf, flags, pool);
  }

  // What happens behind slot i does not change the slot.
  lemma {:induction false} SlotStays(m: Memory, at: map<nat, Place>, t: nat, i: nat, p: seq<nat>, leaf: Entry,
                                     flags: set<Flag>, pool: seq<nat>)
    requires Tree(m, at) && t in m && i < ENTRIES && p != [] && Indices(p) && Depth(at[t]) + 1 + |p| == 4
    requires LeadsOn(at[t], m[t][i]) && Fresh(m, pool) && PageSize !in flags && Missing(m, m[t][i].frame, p) <= |pool|
    ensures var w := Mapped(m, m[t][i].frame, p, leaf, flags, pool); t in w && |w[t]| == ENTRIES && w[t][i] == m[t][i]
  {
    assert Hangs(m, at, t, i);
    var c := m[t][i].frame;
    Makes(m, at, c, p, leaf, flags, pool);
    assert OldEntry(m, at, Mapped(m, c, p, leaf, flags, pool), c, p, leaf, flags, pool, t, i);
    if OnWay(m, c, p, t, i) { OnWayBelow(m, at, c, p, t, i); }
  }

  lemma {:induction false} AfterNew(m: Memory, at: map<nat, Place>, t: nat, p: seq<nat>, leaf: Entry, flags: set<Flag>,
                                    pool: seq<nat>, q: seq<nat>)
    requires Tree(m, at) && t in m && |p| > 1 && Indices(p) && Indices(q) && |p| == |q| && Depth(at[t]) + |p| == 4
    requires at[t].Lower? && (|p| == 4 ==> p[0] != 511) && p[0] == q[0] && Present !in m[t][p[0]].flags
    requires Fresh(m, pool) && PageSize !in flags && Missing(m, t, p) <= |pool|
    ensures Missing(Mapped(m, t, p, leaf, flags, pool), t, q) == |p| - 1 - Shared(p, q)
    decreases |p|, 0
  {
    var w, f := Opened(m, t, p[0], flags, pool), pool[0];
    var ats := at[f := Under(at[t], p[0])];
    GrowTree(m, at, t, p[0], f, NEW_FLAGS + flags);
    EmptyMissing(w, f, p[1..]);
    EmptyMissing(w, f, q[1..]);
    MissingAfter(w, ats, f, p[1..], leaf, flags, pool[1..], q[1..]);
    SlotStays(w, ats, t, p[0], p[1..], leaf, flags, pool[1..]);
  }

  // The paths of the tables on the ways to the first n devices.
  ghost function TablePaths(devices: seq<nat>, n: nat): set<seq<nat>>
    requires n <= |devices|
  {
    set k, l | 0 <= k < n && 1 <= l <= 3 :: Path(devices[k] * 0x1000)[..l]
  }

  // Tables on the way along q that are not at one of the paths.
  function Absent(ps: set<seq<nat>>, q: seq<nat>): (n: nat)
    requires |q| == 4
    ensures n <= 3
  {
    (if q[..1] in ps then 0 else 1) + (if q[..2] in ps then 0 else 1) + (if q[..3] in ps then 0 else 1)
  }

  // The tables of a directory are those at the paths.
  ghost predicate TablesAt(m: Memory, c: nat, ps: set<seq<nat>>) {
    forall q :: |q| == 4 && Indices(q) && q[0] != 511 ==> Missing(m, c, q) == Absent(ps, q)
  }

  function WayPaths(p: seq<nat>): set<seq<nat>>
    requires |p| == 4
  {
    {p[..1], p[..2], p[..3]}
  }

  lemma {:induction false} NextPaths(devices: seq<nat>, n: nat)
    requires n < |devices|
    ensures TablePaths(devices, n + 1) == TablePaths(devices, n) + WayPaths(Path(devices[n] * 0x1000))
  {
    var p := Path(devices[n] * 0x1000);
    forall x ensures x in TablePaths(devices, n + 1) <==> x in TablePaths(devices, n) + WayPaths(p) {
      if x in WayPaths(p) { assert x == p[..|x|] && 1 <= |x| <= 3; }
    }
  }

  predicate Prefixed(ps: set<seq<nat>>) {
    forall x :: x in ps && |x| > 1 ==> x[..|x| - 1] in ps
  }

  lemma {:induction false} PathsPrefixed(devices: seq<nat>, n: nat)
    requires n <= |devices|
    ensures Prefixed(TablePaths(devices, n))
  {
    forall x | x in TablePaths(devices, n) && |x| > 1 ensures x[..|x| - 1] in TablePaths(devices, n) {
      var k, l :| 0 <= k < n && 1 <= l <= 3 && x == Path(devices[k] * 0x1000)[..l];
      assert x[..|x| - 1] == Path(devices[k] * 0x1000)[..l - 1];
    }
  }

  lemma {:induction false} MorePaths(ps: set<seq<nat>>, p: seq<nat>)
    requires |p| == 4
    ensures |ps + WayPaths(p)| == |ps| + Absent(ps, p)
  {
    OneMorePath(ps, p[..1]);
    OneMorePath(ps + {p[..1]}, p[..2]);
    OneMorePath(ps + {p[..1]} + {p[..2]}, p[..3]);
    assert |p[..1]| == 1 && |p[..2]| == 2 && |p[..3]| == 3;
    assert ps + WayPaths(p) == ps + {p[..1]} + {p[..2]} + {p[..3]};
  }

  lemma {:induction false} OneMorePath(ps: set<seq<nat>>, x: seq<nat>)
    ensures |ps + {x}| == |ps| + if x in ps then 0 else 1
  {
    if x in ps { assert ps + {x} == ps; }
  }

  lemma {:induction false} SharedPrefix(p: seq<nat>, q: seq<nat>, l: nat)
    requires |p| == |q| && l < |p|
    ensures Shared(p, q) >= l <==> p[..l] == q[..l]
  {
    if l > 0 {
      assert p[..l] == [p[0]] + p[1..][..l - 1] && q[..l] == [q[0]] + q[1..][..l - 1];
      if p[0] == q[0] { SharedPrefix(p[1..], q[1..], l - 1); }
      assert p[..l][0] == p[0] && q[..l][0] == q[0];
      assert p[..l][1..] == p[1..][..l - 1] && q[..l][1..] == q[1..][..l - 1];
    }
  }

  lemma {:induction false} AbsentAfter(ps: set<seq<nat>>, p: seq<nat>, q: seq<nat>)
    requires |p| == |q| == 4 && Prefixed(ps)
    ensures Absent(ps + WayPaths(p), q) == Less(Absent(ps, q), 3 - Shared(p, q))
  {
    SharedPrefix(p, q, 1);
    SharedPrefix(p, q, 2);
    SharedPrefix(p, q, 3);
    assert q[..3][..2] == q[..2] && q[..2][..1] == q[..1];
    assert |q[..1]| == |p[..1]| == 1 && |q[..2]| == |p[..2]| == 2 && |q[..3]| == |p[..3]| == 3;
  }

  // The way to one more device.
  lemma {:induction false} DeviceTables(m: Memory, at: map<nat, Place>, c: nat, devices: seq<nat>, n: nat, leaf: Entry,
                                        flags: set<Flag>, pool: seq<nat>)
    requires Tree(m, at) && c in m && at[c] == Lower(c, []) && n < |devices| && PageSize !in flags
    requires Path(devices[n] * 0x1000)[0] != 511 && TablesAt(m, c, TablePaths(devices, n)) && Fresh(m, pool)
    requires Missing(m, c, Path(devices[n] * 0x1000)) <= |pool|
    ensures TablesAt(Mapped(m, c, Path(devices[n] * 0x1000), leaf, flags, pool), c, TablePaths(devices, n + 1))
  {
    NextPaths(devices, n);
    PathsPrefixed(devices, n);
    WayTables(m, at, c, TablePaths(devices, n), Path(devices[n] * 0x1000), leaf, flags, pool);
  }

  lemma {:induction false} WayTables(m: Memory, at: map<nat, Place>, c: nat, ps: set<seq<nat>>, p: seq<nat>,
                                     leaf: Entry, flags: set<Flag>, pool: seq<nat>)
    requires Tree(m, at) && c in m && at[c] == Lower(c, []) && |p| == 4 && Indices(p) && p[0] != 511
    requires Prefixed(ps) && TablesAt(m, c, ps) && Fresh(m, pool) && Missing(m, c, p) <= |pool| && PageSize !in flags
    ensures TablesAt(Mapped(m, c, p, leaf, flags, pool), c, ps + WayPaths(p))
  {
    forall q | |q| == 4 && Indices(q) && q[0] != 511
      ensures Missing(Mapped(m, c, p, leaf, flags, pool), c, q) == Absent(ps + WayPaths(p), q)
    {
      MissingAfter(m, at, c, p, leaf, flags, pool, q);
      AbsentAfter(ps, p, q);
    }
  }

  // A directory without tables.
  lemma {:induction false} NoTables(m: Memory, c: nat, devices: seq<nat>)
    requires c in m && |m[c]| == ENTRIES && forall i :: 0 <= i < 511 ==> m[c][i] == EMPTY
    ensures TablesAt(m, c, TablePaths(devices, 0)) && |TablePaths(devices, 0)| == 0
  {
    assert TablePaths(devices, 0) == {};
  }

  // The pool after one more device; when it is used up there, it is too small.
  lemma {:induction false} DeviceServed(ok: bool, pool0: seq<nat>, left: seq<nat>, pool: seq<nat>, devices: seq<nat>,
                                        k: nat)
    requires k < |devices| && Served(true, pool0, left, 1 + |TablePaths(devices, k)|)
    requires Served(ok, left, pool, Absent(TablePaths(devices, k), Path(devices[k] * 0x1000)))
    ensures if ok then Served(true, pool0, pool, 1 + |TablePaths(devices, k + 1)|)
      else Served(false, pool0, pool, 1 + |TablePaths(devices, |devices|)|)
  {
    var ps, p := TablePaths(devices, k), Path(devices[k] * 0x1000);
    NextPaths(devices, k);
    MorePaths(ps, p);
    ServedTwice(true, ok, pool0, left, pool, 1 + |ps|, Absent(ps, p));
    FewerPaths(devices, k + 1, |devices|);
  }

  lemma {:induction false} FewerPaths(devices: seq<nat>, k: nat, n: nat)
    requires k <= n <= |devices|
    ensures |TablePaths(devices, k)| <= |TablePaths(devices, n)|
  {
    if k < n {
      FewerPaths(devices, k, n - 1);
      NextPaths(devices, n - 1);
      MorePaths(TablePaths(devices, n - 1), Path(devices[n - 1] * 0x1000));
    }
  }

  // ----- The tables that a copy needs

  // One for each present slot below i of t above the leaves, and those behind it.
  function Tables(m: Memory, t: nat, i: nat, n: nat): nat
    decreases n, i, 1
  {
    if i == 0 then 0 else Tables(m, t, i - 1, n) + SlotTables(m, t, i - 1, n)
  }

  // A 2 MB page gets a table, too.
  function SlotTables(m: Memory, t: nat, i: nat, n: nat): nat
    decreases n, i, 0
  {
    if n <= 1 || t !in m || i >= |m[t]| || Present !in m[t][i].flags then 0
    else if n < 4 && PageSize in m[t][i].flags then 1
    else 1 + Tables(m, m[t][i].frame, ENTRIES, n - 1)
  }

  lemma {:induction false} MoreTables(m: Memory, t: nat, i: nat, k: nat, n: nat)
    requires i <= k
    ensures Tables(m, t, i, n) <= Tables(m, t, k, n)
  {
    if i < k { MoreTables(m, t, i, k - 1, n); }
  }

  lemma {:induction false} SameTables(m: Memory, w: Memory, at: map<nat, Place>, t: nat, i: nat, n: nat)
    requires Tree(m, at) && t in m && i <= ENTRIES && Depth(at[t]) + n == 4 && SameBelow(m, w, at, at[t])
    ensures Tables(w, t, i, n) == Tables(m, t, i, n)
    decreases n, i, 1
  {
    if i > 0 {
      SameTables(m, w, at, t, i - 1, n);
      SameUnder(m, w, at, at[t], i - 1);
      SameSlotTables(m, w, at, t, i - 1, n);
    }
  }

  lemma {:induction false} SameSlotTables(m: Memory, w: Memory, at: map<nat, Place>, t: nat, i: nat, n: nat)
    requires Tree(m, at) && t in m && i < ENTRIES && Depth(at[t]) + n == 4 && SameBelow(m, w, at, Under(at[t], i))
    requires t in w && |w[t]| == ENTRIES && w[t][i] == m[t][i]
    ensures SlotTables(w, t, i, n) == SlotTables(m, t, i, n)
    decreases n, i, 0
  {
    if LeadsOn(at[t], m[t][i]) {
      assert Hangs(m, at, t, i);
      BehindTables(m, w, at, m[t][i].frame, n - 1);
    }
  }

  lemma {:induction false} BehindTables(m: Memory, w: Memory, at: map<nat, Place>, c: nat, n: nat)
    requires Tree(m, at) && c in m && Depth(at[c]) + n == 4 && SameBelow(m, w, at, at[c])
    ensures Tables(w, c, ENTRIES, n) == Tables(m, c, ENTRIES, n)
    decreases n, ENTRIES + 1
  {
    var i := ENTRIES;
    SameTables(m, w, at, c, i, n);
  }

  // ----- What is counted

  // The entry at the end of the indices x from t, which is above the leaves, is
  // present.
  predicate PresentAt(m: Memory, t: nat, x: seq<nat>, n: nat)
    decreases |x|
  {
    && 0 < |x| < n && t in m && x[0] < |m[t]| && Present in m[t][x[0]].flags
    && (|x| == 1 || ((n == 4 || PageSize !in m[t][x[0]].flags) && PresentAt(m, m[t][x[0]].frame, x[1..], n - 1)))
  }

  ghost predicate PathsBelow(m: Memory, t: nat, i: nat, n: nat, xs: set<seq<nat>>) {
    forall x :: x in xs <==> PresentAt(m, t, x, n) && x[0] < i
  }

  // Main result: a copy needs one table for each path with at most three indices
  // that ends in an entry that is present.
  lemma {:induction false} TablesArePaths(m: Memory, t: nat, i: nat, n: nat) returns (xs: set<seq<nat>>)
    requires n <= 4
    requires forall s :: s in m ==> |m[s]| == ENTRIES
    ensures PathsBelow(m, t, i, n, xs) && |xs| == Tables(m, t, i, n)
    decreases n, i, 1
  {
    if i == 0 {
      xs := {};
    } else {
      var ys := TablesArePaths(m, t, i - 1, n);
      var zs := SlotPaths(m, t, i - 1, n);
      xs := ys + zs;
      assert ys !! zs;
    }
  }

  ghost predicate PathsThrough(m: Memory, t: nat, i: nat, n: nat, xs: set<seq<nat>>) {
    forall x :: x in xs <==> PresentAt(m, t, x, n) && x[0] == i
  }

  lemma {:induction false} SlotPaths(m: Memory, t: nat, i: nat, n: nat) returns (xs: set<seq<nat>>)
    requires n <= 4
    requires forall s :: s in m ==> |m[s]| == ENTRIES
    ensures PathsThrough(m, t, i, n, xs) && |xs| == SlotTables(m, t, i, n)
    decreases n, i, 0
  {
    if n <= 1 || t !in m || i >= |m[t]| || Present !in m[t][i].flags {
      xs := {};
    } else if n < 4 && PageSize in m[t][i].flags {
      xs := {[i]};
      assert forall x: seq<nat> :: |x| == 1 && x[0] == i ==> x == [i];
    } else {
      var ys := TablesArePaths(m, m[t][i].frame, ENTRIES, n - 1);
      var zs := Through(i, ys);
      xs := {[i]} + zs;
      ThroughSlot(m, t, i, n, ys, zs);
    }
  }

  // The paths ys with index i in front.
  lemma {:induction false} Through(i: nat, ys: set<seq<nat>>) returns (xs: set<seq<nat>>)
    ensures forall x :: x in xs <==> x != [] && x[0] == i && x[1..] in ys
    ensures |xs| == |ys|
    decreases |ys|
  {
    xs := {};
    if ys != {} {
      var y :| y in ys;
      var rest := Through(i, ys - {y});
      xs := rest + {[i] + y};
      assert ([i] + y)[1..] == y;
      forall x | x != [] && x[0] == i && x[1..] in ys ensures x in xs { assert x == [i] + x[1..]; }
    }
  }

  lemma {:induction false} ThroughSlot(m: Memory, t: nat, i: nat, n: nat, ys: set<seq<nat>>, zs: set<seq<nat>>)
    requires 1 < n <= 4 && t in m && i < |m[t]| && Present in m[t][i].flags && (n == 4 || PageSize !in m[t][i].flags)
    requires forall s :: s in m ==> |m[s]| == ENTRIES
    requires PathsBelow(m, m[t][i].frame, ENTRIES, n - 1, ys)
    requires forall x :: x in zs <==> x != [] && x[0] == i && x[1..] in ys
    ensures PathsThrough(m, t, i, n, {[i]} + zs) && [i] !in zs
  {
    var c := m[t][i].frame;
    forall x ensures x in {[i]} + zs <==> PresentAt(m, t, x, n) && x[0] == i {
      if x != [] && x[0] == i {
        var y := x[1..];
        assert y in ys <==> PresentAt(m, c, y, n - 1) && y[0] < ENTRIES;
        if y == [] { assert x == [i]; }
      }
    }
  }
}
