// The way of amd64_map_page_to_dir of src/arch/amd64/mmu.c through the tables:
// how many of them are missing, and what it does entry by entry.
module TableWays {
  import opened PageTables

  // ----- How many tables are missing

  // Tables that are missing on the way from t through the indices p.
  function Missing(m: Memory, t: nat, p: seq<nat>): (n: nat)
    ensures n <= |p| && (p != [] ==> n < |p|)
    decreases |p|
  {
    if |p| <= 1 || t !in m || p[0] >= |m[t]| then 0 else
      var e := m[t][p[0]];
      if Present !in e.flags then |p| - 1
      else if |p| < 4 && PageSize in e.flags then 0
      else Missing(m, e.frame, p[1..])
  }

  // n frames are taken from the front of the pool, or it is used up.
  predicate Served(ok: bool, before: seq<nat>, after: seq<nat>, n: nat) {
    (ok <==> |before| >= n) && after == if ok then before[n..] else []
  }

  lemma {:induction false} ServedTwice(ok1: bool, ok2: bool, a: seq<nat>, b: seq<nat>, c: seq<nat>, n: nat, k: nat)
    requires Served(ok1, a, b, n) && if ok1 then Served(ok2, b, c, k) else !ok2 && c == b
    ensures Served(ok2, a, c, n + k)
  {
  }

  lemma {:induction false} ServedLess(a: seq<nat>, b: seq<nat>, n: nat, k: nat)
    requires Served(false, a, b, n)
    ensures Served(false, a, b, n + k)
  {
  }

  // The frames that hold tables or are still to be given out.
  function Frames(m: Memory, pool: seq<nat>): set<nat> {
    m.Keys + set f | f in pool
  }

  lemma {:induction false} FirstFrame(m: Memory, w: Memory, pool: seq<nat>)
    requires pool != [] && w.Keys == m.Keys + {pool[0]}
    ensures Frames(w, pool[1..]) == Frames(m, pool)
  {
    assert forall f :: f in pool <==> f == pool[0] || f in pool[1..];
  }

  // Indices of tables that two paths have in common from the start.
  function Shared(p: seq<nat>, q: seq<nat>): (n: nat)
    ensures n <= |p| && (p != [] ==> n < |p|)
  {
    if |p| <= 1 || |q| <= 1 || p[0] != q[0] then 0 else 1 + Shared(p[1..], q[1..])
  }

  function Less(a: nat, b: nat): nat {
    if a < b then a else b
  }

  // ----- Entry by entry

  const NEW_FLAGS: set<Flag> := {Present, ReadWrite}

  // The memory once slot i of t leads on, to a table from the front of the pool
  // where it did not.
  function Opened(m: Memory, t: nat, i: nat, flags: set<Flag>, pool: seq<nat>): Memory
    requires t in m && i < |m[t]| && (Present in m[t][i].flags || (pool != [] && pool[0] !in m))
  {
    if Present in m[t][i].flags then
      Store(m, t, i, Entry(m[t][i].frame, m[t][i].flags + flags))
    else
      Grow(m, t, i, pool[0], NEW_FLAGS + flags)
  }

  function PoolAfter(m: Memory, t: nat, i: nat, pool: seq<nat>): seq<nat>
    requires t in m && i < |m[t]| && (Present in m[t][i].flags || pool != [])
  {
    if Present in m[t][i].flags then pool else pool[1..]
  }

  // Frames to come that are neither in use nor twice in the pool.
  predicate Fresh(m: Memory, pool: seq<nat>) {
    && (forall i :: 0 <= i < |pool| ==> pool[i] !in m)
    && (forall i, j :: 0 <= i < j < |pool| ==> pool[i] != pool[j])
  }

  // The memory after the page at the end of the way was mapped.
  function Mapped(m: Memory, t: nat, p: seq<nat>, leaf: Entry, flags: set<Flag>, pool: seq<nat>): Memory
    decreases |p|
  {
    if p == [] || t !in m || p[0] >= |m[t]| then m
    else if |p| == 1 then Store(m, t, p[0], leaf)
    else if Present !in m[t][p[0]].flags && (pool == [] || pool[0] in m) then m
    else
      var w := Opened(m, t, p[0], flags, pool);
      if |p| < 4 && PageSize in m[t][p[0]].flags && Present in m[t][p[0]].flags then w
      else Mapped(w, w[t][p[0]].frame, p[1..], leaf, flags, PoolAfter(m, t, p[0], pool))
  }

  // The way that began at r with path p has come to t, with path q to go.
  ghost predicate ToGo(m0: Memory, pool0: seq<nat>, r: nat, p: seq<nat>, m: Memory, pool: seq<nat>, t: nat,
                       q: seq<nat>, leaf: Entry, flags: set<Flag>) {
    && |pool| <= |pool0| && pool == pool0[|pool0| - |pool|..]
    && Missing(m0, r, p) == |pool0| - |pool| + Missing(m, t, q)
    && Mapped(m0, r, p, leaf, flags, pool0) == Mapped(m, t, q, leaf, flags, pool)
  }

  ghost predicate Coming(ok: bool, m0: Memory, pool0: seq<nat>, r: nat, p: seq<nat>, m: Memory, pool: seq<nat>, t: nat,
                         q: seq<nat>, leaf: Entry, flags: set<Flag>) {
    if ok then ToGo(m0, pool0, r, p, m, pool, t, q, leaf, flags) else |pool0| < Missing(m0, r, p)
  }

  // What one level does: it fails when a table is missing and the pool is empty.
  predicate OpensExactly(ok: bool, m: Memory, pool: seq<nat>, w: Memory, left: seq<nat>, t: nat, i: nat, next: nat,
                         flags: set<Flag>) {
    && t in m && i < |m[t]| && (ok <==> Present in m[t][i].flags || pool != [])
    && (ok ==>
          && (Present in m[t][i].flags || (pool != [] && pool[0] !in m))
          && w == Opened(m, t, i, flags, pool) && left == PoolAfter(m, t, i, pool) && next == w[t][i].frame)
  }

  // The slot was given a table if it had none, and then the flags.
  predicate Filled(m0: Memory, pool: seq<nat>, m: Memory, left: seq<nat>, t: nat, i: nat) {
    && t in m0 && t in m && i < |m0[t]| && i < |m[t]|
    && if Present in m0[t][i].flags then m == m0 && left == pool
       else pool != [] && pool[0] !in m0 && m == Grow(m0, t, i, pool[0], NEW_FLAGS) && left == pool[1..]
  }

  lemma {:induction false} FilledOpens(m0: Memory, pool: seq<nat>, m: Memory, left: seq<nat>, w: Memory, t: nat,
                                       i: nat, flags: set<Flag>)
    requires Filled(m0, pool, m, left, t, i) && w == Store(m, t, i, Entry(m[t][i].frame, m[t][i].flags + flags))
    ensures OpensExactly(true, m0, pool, w, left, t, i, m[t][i].frame, flags)
  {
    if Present !in m0[t][i].flags {
      var e := Entry(pool[0], NEW_FLAGS + flags);
      assert m[t][i := e] == m0[t][i := e];
      assert w == Grow(m0, t, i, pool[0], NEW_FLAGS + flags);
    }
  }

  lemma {:induction false} OneMore(m0: Memory, pool0: seq<nat>, r: nat, p: seq<nat>, m: Memory, pool: seq<nat>, t: nat,
                                   q: seq<nat>, leaf: Entry, flags: set<Flag>, ok: bool, w: Memory, left: seq<nat>,
                                   next: nat)
    requires ToGo(m0, pool0, r, p, m, pool, t, q, leaf, flags)
    requires |q| > 1 && Indices(q) && PageSize !in flags && OpensExactly(ok, m, pool, w, left, t, q[0], next, flags)
    requires |q| < 4 && Present in m[t][q[0]].flags ==> PageSize !in m[t][q[0]].flags
    ensures Coming(ok, m0, pool0, r, p, w, left, next, q[1..], leaf, flags)
  {
    if Present in m[t][q[0]].flags {
      OrMissing(m, t, q[0], flags, m[t][q[0]].frame, q[1..]);
    } else if ok {
      EmptyMissing(w, next, q[1..]);
    }
  }

  // The way is at its end, with memory w.
  ghost predicate Arrived(ok: bool, m0: Memory, pool0: seq<nat>, r: nat, p: seq<nat>, w: Memory, pool: seq<nat>,
                          leaf: Entry, flags: set<Flag>) {
    Served(ok, pool0, pool, Missing(m0, r, p)) && (ok ==> w == Mapped(m0, r, p, leaf, flags, pool0))
  }

  lemma {:induction false} AtLeaf(m0: Memory, pool0: seq<nat>, r: nat, p: seq<nat>, m: Memory, pool: seq<nat>, t: nat,
                                  leaf: Entry, flags: set<Flag>)
    requires |p| == 4 && ToGo(m0, pool0, r, p, m, pool, t, p[3..], leaf, flags) && t in m && p[3] < |m[t]|
    ensures Arrived(true, m0, pool0, r, p, Store(m, t, p[3], leaf), pool, leaf, flags)
  {
  }

  lemma {:induction false} AtLargePage(m0: Memory, pool0: seq<nat>, r: nat, p: seq<nat>, m: Memory, pool: seq<nat>,
                                       t: nat, leaf: Entry, flags: set<Flag>)
    requires |p| == 4 && ToGo(m0, pool0, r, p, m, pool, t, p[2..], leaf, flags) && t in m && p[2] < |m[t]|
    requires {Present, PageSize} <= m[t][p[2]].flags
    ensures Arrived(true, m0, pool0, r, p, Store(m, t, p[2], Entry(m[t][p[2]].frame, m[t][p[2]].flags + flags)), pool,
              leaf, flags)
  {
    assert p[2..][0] == p[2] && |p[2..]| == 2;
  }

  // Behind an empty table nothing is there.
  lemma {:induction false} EmptyMissing(m: Memory, f: nat, q: seq<nat>)
    requires f in m && |m[f]| == ENTRIES && q != [] && Indices(q) && m[f][q[0]] == EMPTY
    ensures Missing(m, f, q) == |q| - 1
    ensures forall s, i :: OnWay(m, f, q, s, i) <==> s == f && i == q[0]
  {
  }

  // Flags added to an entry that is present let no table go missing.
  lemma {:induction false} OrMissing(m: Memory, t: nat, i: nat, flags: set<Flag>, s: nat, p: seq<nat>)
    requires t in m && i < |m[t]| && Present in m[t][i].flags && PageSize !in flags
    ensures Missing(Store(m, t, i, Entry(m[t][i].frame, m[t][i].flags + flags)), s, p) == Missing(m, s, p)
    decreases |p|
  {
    if |p| > 1 && s in m && p[0] < |m[s]| { OrMissing(m, t, i, flags, m[s][p[0]].frame, p[1..]); }
  }

  // ----- The slots on the way

  predicate OnWay(m: Memory, t: nat, p: seq<nat>, s: nat, i: nat)
    decreases |p|
  {
    p != [] && t in m && p[0] < |m[t]| &&
    var e := m[t][p[0]];
    || (s == t && i == p[0])
    || (|p| > 1 && Present in e.flags && (|p| == 4 || PageSize !in e.flags) && OnWay(m, e.frame, p[1..], s, i))
  }

  lemma {:induction false} OrOnWay(m: Memory, t: nat, i: nat, flags: set<Flag>, c: nat, p: seq<nat>, s: nat, j: nat)
    requires t in m && i < |m[t]| && Present in m[t][i].flags && PageSize !in flags
    ensures OnWay(Store(m, t, i, Entry(m[t][i].frame, m[t][i].flags + flags)), c, p, s, j) <==> OnWay(m, c, p, s, j)
    decreases |p|
  {
    if |p| > 1 && c in m && p[0] < |m[c]| { OrOnWay(m, t, i, flags, m[c][p[0]].frame, p[1..], s, j); }
  }

  lemma {:induction false} OnWayBelow(m: Memory, at: map<nat, Place>, t: nat, p: seq<nat>, s: nat, i: nat)
    requires Tree(m, at) && t in m && Indices(p) && Depth(at[t]) + |p| == 4 && OnWay(m, t, p, s, i)
    ensures s in m && ((s == t && i == p[0]) || (p != [] && Reaches(Under(at[t], p[0]), at[s])))
    decreases |p|
  {
    if !(s == t && i == p[0]) {
      assert Hangs(m, at, t, p[0]);
      var c := m[t][p[0]].frame;
      OnWayBelow(m, at, c, p[1..], s, i);
      if Reaches(Under(at[c], p[1]), at[s]) { ReachesUnder(at[c], p[1], at[s]); }
    }
  }

  // The entry that slot i of t has after the mapping, on the way.
  function WayEntry(e: Entry, last: bool, leaf: Entry, flags: set<Flag>, pool: seq<nat>): Entry {
    if last then leaf
    else if Present in e.flags then Entry(e.frame, e.flags + flags)
    else if pool == [] then e
    else Entry(pool[0], NEW_FLAGS + flags)
  }

  // The fresh tables, which are empty but for the way to the leaf.
  ghost predicate FreshWay(w: Memory, p: seq<nat>, leaf: Entry, flags: set<Flag>, pool: seq<nat>, n: nat)
    requires n <= |pool| && n <= |p|
  {
    forall k, i :: 0 <= k < n && 0 <= i < ENTRIES ==> FreshEntry(w, p, leaf, flags, pool, n, k, i)
  }

  ghost predicate FreshEntry(w: Memory, p: seq<nat>, leaf: Entry, flags: set<Flag>, pool: seq<nat>, n: nat, k: nat, i: nat)
    requires k < n <= |pool| && n <= |p|
  {
    pool[k] in w && i < |w[pool[k]]| &&
    w[pool[k]][i] == if i != p[|p| - n + k] then EMPTY else if k == n - 1 then leaf else Entry(pool[k + 1], NEW_FLAGS + flags)
  }

  ghost predicate OldEntry(m: Memory, at: map<nat, Place>, w: Memory, t: nat, p: seq<nat>, leaf: Entry,
                           flags: set<Flag>, pool: seq<nat>, s: nat, i: nat)
    requires s in m && s in at && i < |m[s]|
  {
    && s in w && |w[s]| == |m[s]|
    && w[s][i] == if OnWay(m, t, p, s, i) then WayEntry(m[s][i], Depth(at[s]) == 3, leaf, flags, pool) else m[s][i]
  }

  ghost predicate MadeExactly(m: Memory, at: map<nat, Place>, w: Memory, t: nat, p: seq<nat>, leaf: Entry,
                              flags: set<Flag>, pool: seq<nat>)
    requires Missing(m, t, p) <= |pool| && at.Keys == m.Keys
  {
    var n := Missing(m, t, p);
    && w.Keys == m.Keys + (set k | 0 <= k < n :: pool[k])
    && (forall s, i :: s in m && 0 <= i < |m[s]| ==> OldEntry(m, at, w, t, p, leaf, flags, pool, s, i))
    && FreshWay(w, p, leaf, flags, pool, n)
  }

  // Main result: exactly the slots on the way change, and exactly the missing
  // tables are taken from the pool.
  lemma {:induction false} Makes(m: Memory, at: map<nat, Place>, t: nat, p: seq<nat>, leaf: Entry, flags: set<Flag>,
                                 pool: seq<nat>)
    requires Tree(m, at) && t in m && p != [] && Indices(p) && Depth(at[t]) + |p| == 4
    requires Fresh(m, pool) && PageSize !in flags && Missing(m, t, p) <= |pool|
    ensures MadeExactly(m, at, Mapped(m, t, p, leaf, flags, pool), t, p, leaf, flags, pool)
    decreases |p|
  {
    if |p| == 1 {
    } else if Present !in m[t][p[0]].flags {
      MakesNew(m, at, t, p, leaf, flags, pool);
    } else if LeadsOn(at[t], m[t][p[0]]) {
      var w := Opened(m, t, p[0], flags, pool);
      OrTree(m, at, t, p[0], flags);
      assert Hangs(m, at, t, p[0]);
      var c := m[t][p[0]].frame;
      OrMissing(m, t, p[0], flags, c, p[1..]);
      Makes(w, at, c, p[1..], leaf, flags, pool);
      MakesOld(m, at, t, p, leaf, flags, pool);
    }
  }

  lemma {:induction false} MakesOld(m: Memory, at: map<nat, Place>, t: nat, p: seq<nat>, leaf: Entry, flags: set<Flag>,
                                    pool: seq<nat>)
    requires Tree(m, at) && t in m && |p| > 1 && Indices(p) && Depth(at[t]) + |p| == 4
    requires PageSize !in flags && LeadsOn(at[t], m[t][p[0]])
    requires var w, c := Opened(m, t, p[0], flags, pool), m[t][p[0]].frame;
      && Missing(w, c, p[1..]) == Missing(m, t, p) <= |pool|
      && MadeExactly(w, at, Mapped(w, c, p[1..], leaf, flags, pool), c, p[1..], leaf, flags, pool)
    ensures MadeExactly(m, at, Mapped(m, t, p, leaf, flags, pool), t, p, leaf, flags, pool)
  {
    var w, c, q := Opened(m, t, p[0], flags, pool), m[t][p[0]].frame, p[1..];
    var x := Mapped(w, c, q, leaf, flags, pool);
    forall s, i | s in m && 0 <= i < |m[s]| ensures OldEntry(m, at, x, t, p, leaf, flags, pool, s, i) {
      assert OldEntry(w, at, x, c, q, leaf, flags, pool, s, i);
      OrOnWay(m, t, p[0], flags, c, q, s, i);
      OffWay(m, at, t, p, i);
    }
    var n := Missing(m, t, p);
    forall k, i | 0 <= k < n && 0 <= i < ENTRIES ensures FreshEntry(x, p, leaf, flags, pool, n, k, i) {
      assert FreshEntry(x, q, leaf, flags, pool, n, k, i);
      assert q[|q| - n + k] == p[|p| - n + k];
    }
  }

  // The way does not come back to the table.
  lemma {:induction false} OffWay(m: Memory, at: map<nat, Place>, t: nat, p: seq<nat>, i: nat)
    requires Tree(m, at) && t in m && |p| > 1 && Indices(p) && Depth(at[t]) + |p| == 4 && LeadsOn(at[t], m[t][p[0]])
    ensures !OnWay(m, m[t][p[0]].frame, p[1..], t, i)
  {
    assert Hangs(m, at, t, p[0]);
    var c := m[t][p[0]].frame;
    if OnWay(m, c, p[1..], t, i) { OnWayBelow(m, at, c, p[1..], t, i); }
  }

  lemma {:induction false} MakesNew(m: Memory, at: map<nat, Place>, t: nat, p: seq<nat>, leaf: Entry, flags: set<Flag>,
                                    pool: seq<nat>)
    requires Tree(m, at) && t in m && |p| > 1 && Indices(p) && Depth(at[t]) + |p| == 4
    requires Fresh(m, pool) && PageSize !in flags && |p| - 1 <= |pool| && Present !in m[t][p[0]].flags
    ensures MadeExactly(m, at, Mapped(m, t, p, leaf, flags, pool), t, p, leaf, flags, pool)
    decreases |p|, 0
  {
    var w, f, q := Opened(m, t, p[0], flags, pool), pool[0], p[1..];
    var ats := at[f := Under(at[t], p[0])];
    GrowTree(m, at, t, p[0], f, NEW_FLAGS + flags);
    EmptyMissing(w, f, q);
    Makes(w, ats, f, q, leaf, flags, pool[1..]);
    NewEntries(m, at, ats, w, Mapped(w, f, q, leaf, flags, pool[1..]), t, p, leaf, flags, pool);
  }

  lemma {:induction false} NewEntries(m: Memory, at: map<nat, Place>, ats: map<nat, Place>, w: Memory, x: Memory,
                                      t: nat, p: seq<nat>, leaf: Entry, flags: set<Flag>, pool: seq<nat>)
    requires Tree(m, at) && t in m && |p| > 1 && Indices(p) && Depth(at[t]) + |p| == 4
    requires Fresh(m, pool) && |p| - 1 <= |pool| && Present !in m[t][p[0]].flags
    requires w == Grow(m, t, p[0], pool[0], NEW_FLAGS + flags) && ats == at[pool[0] := Under(at[t], p[0])]
    requires Missing(w, pool[0], p[1..]) == |p| - 2
    requires forall s, i :: OnWay(w, pool[0], p[1..], s, i) <==> s == pool[0] && i == p[1]
    requires MadeExactly(w, ats, x, pool[0], p[1..], leaf, flags, pool[1..])
    ensures MadeExactly(m, at, x, t, p, leaf, flags, pool)
  {
    var f, q, n := pool[0], p[1..], |p| - 1;
    forall s, i | s in m && 0 <= i < |m[s]| ensures OldEntry(m, at, x, t, p, leaf, flags, pool, s, i) {
      assert OldEntry(w, ats, x, f, q, leaf, flags, pool[1..], s, i);
    }
    forall k, i | 0 <= k < n && 0 <= i < ENTRIES ensures FreshEntry(x, p, leaf, flags, pool, n, k, i) {
      if k == 0 {
        assert OldEntry(w, ats, x, f, q, leaf, flags, pool[1..], f, i);
      } else {
        assert FreshEntry(x, q, leaf, flags, pool[1..], n - 1, k - 1, i);
        assert q[k] == p[k + 1];
      }
    }
    NewKeys(pool, n);
  }

  lemma {:induction false} NewKeys(pool: seq<nat>, n: nat)
    requires 0 < n <= |pool|
    ensures {pool[0]} + (set k | 0 <= k < n - 1 :: pool[1..][k]) == set k | 0 <= k < n :: pool[k]
  {
    forall k | 0 < k < n ensures pool[k] == pool[1..][k - 1] {}
  }

  // No frame is lost.
  lemma {:induction false} MadeFrames(m: Memory, at: map<nat, Place>, w: Memory, t: nat, p: seq<nat>, leaf: Entry,
                                      flags: set<Flag>, pool: seq<nat>)
    requires Missing(m, t, p) <= |pool| && at.Keys == m.Keys && MadeExactly(m, at, w, t, p, leaf, flags, pool)
    ensures Frames(w, pool[Missing(m, t, p)..]) == Frames(m, pool)
  {
    var n := Missing(m, t, p);
    forall f | f in pool ensures f in Frames(w, pool[n..]) {
      var k :| 0 <= k < |pool| && pool[k] == f;
      if k >= n { assert f == pool[n..][k - n]; }
    }
  }
}
