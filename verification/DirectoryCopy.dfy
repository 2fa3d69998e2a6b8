// amd64_duplicate_dir of src/arch/amd64/mmu.c: a copy of a directory that
// shares all pages copy-on-write.
module DirectoryCopy {
  import opened KernelTables
  import opened PageTables
  import opened Mmu
  import opened TableCounts
  import opened TableWays

  // A leaf after the flags were reset to MM_COW | MM_READONLY | MM_PRESENT | MM_USER.
  function CowEntry(e: Entry): Entry {
    Entry(e.frame, {Cow, Present, User})
  }

  // The same for a 2 MB page, with MM_2MB.
  function CowLarge(e: Entry): Entry {
    Entry(e.frame, {Cow, Present, User, PageSize})
  }

  function CowLeaf(e: Entry, rest: nat): Entry {
    if rest == 0 then CowEntry(e) else CowLarge(e)
  }

  // The words of a data page after the innermost loop ran over them, and the
  // table that it filled on the way.
  function Rewritten(words: seq<Entry>): (r: seq<Entry>)
    ensures |r| == |words|
    ensures forall k :: 0 <= k < |r| ==> r[k] == if Present in words[k].flags then CowEntry(words[k]) else words[k]
  {
    seq(|words|, k requires 0 <= k < |words| => if Present in words[k].flags then CowEntry(words[k]) else words[k])
  }

  function OwnTable(words: seq<Entry>): (r: seq<Entry>)
    ensures |r| == |words|
    ensures forall k :: 0 <= k < |r| ==> r[k] == if Present in words[k].flags then CowEntry(words[k]) else EMPTY
  {
    seq(|words|, k requires 0 <= k < |words| => if Present in words[k].flags then CowEntry(words[k]) else EMPTY)
  }

  // ----- What a copy is

  predicate Maps(c: Translation, e: Entry) {
    c.Map? && c.entry == e && c.rest == 0 && {Present, ReadWrite, User} <= c.above
  }

  // What a walk with last index j gave before (a), and gives afterwards in the
  // original (b) and in the copy (c). For a 2 MB page the copy has a table that
  // was filled from the words of the page itself.
  predicate Copied(d: Data, a: Translation, b: Translation, c: Translation, j: nat) {
    match a
    case Fault => b == Fault && c == Fault
    case Map(e, above, rest) =>
      && b == Map(CowLeaf(e, rest), above, rest)
      && if rest == 0 then Maps(c, CowEntry(e)) else
        && e.frame in d && j < |d[e.frame]|
        && var x := d[e.frame][j];
        if Present in x.flags then Maps(c, CowEntry(x)) else c == Fault
  }

  function Last(p: seq<nat>): nat
    requires p != []
  {
    p[|p| - 1]
  }

  // The same for all walks through slot k of tables with n levels to go.
  ghost predicate SlotCopied(m: Memory, d: Data, w: Memory, to: nat, tc: nat, k: nat, n: nat) {
    forall q :: |q| == n - 1 && Indices(q) ==>
      Copied(d, Walk(m, to, [k] + q), Walk(w, to, [k] + q), Walk(w, tc, [k] + q), Last([k] + q))
  }

  ghost predicate SlotKept(m: Memory, w: Memory, t: nat, k: nat, n: nat) {
    forall q :: |q| == n - 1 && Indices(q) ==> Walk(w, t, [k] + q) == Walk(m, t, [k] + q)
  }

  // Slot k needs as many tables as before.
  predicate SlotCounted(m: Memory, w: Memory, t: nat, k: nat, n: nat) {
    SlotTables(w, t, k, n) == SlotTables(m, t, k, n)
  }

  ghost predicate SlotPlain(m: Memory, d: Data, t: nat, k: nat, n: nat) {
    forall q :: |q| == n - 1 && Indices(q) ==> Plain(m, d, t, [k] + q)
  }

  ghost predicate TablePlain(m: Memory, d: Data, t: nat, n: nat) {
    forall k :: 0 <= k < Slots(n) ==> SlotPlain(m, d, t, k, n)
  }

  // Slots that the loops visit: not slot 511 of a directory.
  function Slots(n: nat): nat {
    if n == 4 then 511 else ENTRIES
  }

  // ----- The data pages that a copy rewrites

  ghost predicate LargeAt(m: Memory, t: nat, p: seq<nat>, f: nat) {
    var x := Walk(m, t, p);
    x.Map? && x.rest > 0 && x.entry.frame == f
  }

  ghost predicate HitSlot(m: Memory, t: nat, k: nat, n: nat, f: nat) {
    exists q :: |q| == n - 1 && Indices(q) && LargeAt(m, t, [k] + q, f)
  }

  // Frames among fs that a 2 MB page reached through slot k has.
  ghost function LargeSlot(m: Memory, fs: set<nat>, t: nat, k: nat, n: nat): set<nat> {
    set f | f in fs && HitSlot(m, t, k, n, f)
  }

  // The same for all slots below i.
  ghost function LargeBelow(m: Memory, fs: set<nat>, t: nat, i: nat, n: nat): set<nat> {
    if i == 0 then {} else LargeBelow(m, fs, t, i - 1, n) + LargeSlot(m, fs, t, i - 1, n)
  }

  lemma {:induction false} InLargeBelow(m: Memory, fs: set<nat>, t: nat, i: nat, n: nat, f: nat)
    ensures f in LargeBelow(m, fs, t, i, n) <==> f in fs && exists k :: 0 <= k < i && HitSlot(m, t, k, n, f)
  {
    if i > 0 {
      InLargeBelow(m, fs, t, i - 1, n, f);
      assert f in LargeSlot(m, fs, t, i - 1, n) <==> f in fs && HitSlot(m, t, i - 1, n, f);
    }
  }

  // From d to e exactly the pages fs were rewritten.
  predicate Swept(d: Data, e: Data, fs: set<nat>) {
    e.Keys == d.Keys && forall f :: f in d ==> e[f] == if f in fs then Rewritten(d[f]) else d[f]
  }

  lemma {:induction false} RewrittenTwice(words: seq<Entry>)
    ensures Rewritten(Rewritten(words)) == Rewritten(words)
  {
  }

  lemma {:induction false} SweptTwice(d: Data, e: Data, g: Data, fs: set<nat>, gs: set<nat>)
    requires Swept(d, e, fs) && Swept(e, g, gs)
    ensures Swept(d, g, fs + gs)
  {
    forall f | f in d ensures g[f] == if f in fs + gs then Rewritten(d[f]) else d[f] { RewrittenTwice(d[f]); }
  }

  // A copy made from rewritten pages is one made from the pages before.
  lemma {:induction false} CopiedBefore(d: Data, e: Data, fs: set<nat>, a: Translation, b: Translation, c: Translation,
                                        j: nat)
    requires Swept(d, e, fs) && Copied(e, a, b, c, j)
    ensures Copied(d, a, b, c, j)
  {
  }

  // ----- The loops

  // k is the place l or below it.
  predicate Below(l: Place, k: Place) {
    l.Lower? && k.Lower? && l.pml4 == k.pml4 && l.path <= k.path
  }

  // Tables of two directories, at the same depth.
  predicate Twins(l: Place, k: Place, n: nat) {
    l.Lower? && k.Lower? && l.pml4 != k.pml4 && 1 <= n <= 4 && |l.path| == |k.path| == 4 - n
  }

  ghost predicate Ready(d: PageDirectories, to: nat, tc: nat, n: nat)
    reads d
  {
    d.Valid() && to in d.mem && tc in d.mem && Twins(d.at[to], d.at[tc], n)
  }

  // Copies slot i: one pass through the body of a loop of amd64_duplicate_dir
  // for an entry that is present.
  method CopySlot(d: PageDirectories, to: nat, tc: nat, n: nat, i: nat) returns (ok: bool)
    requires Ready(d, to, tc, n) && i < Slots(n) && SlotPlain(d.mem, d.data, to, i, n)
    requires Present in d.mem[to][i].flags
    modifies d`mem, d`pool, d`at, d`data
    ensures Served(ok, old(d.pool), d.pool, SlotTables(old(d.mem), to, i, n))
    ensures ok ==> Frames(d.mem, d.pool) == Frames(old(d.mem), old(d.pool))
    ensures ok ==> Ready(d, to, tc, n) && d.Extends(old(d.mem), old(d.at), {})
    ensures ok ==> SlotDone(old(d.mem), old(d.data), d.mem, d.data, old(d.at), to, tc, i, n)
    decreases n, 1
  {
    if n == 1 {
      CopyLeaf(d, to, tc, i);
      LeafCopied(old(d.mem), d.data, d.mem, old(d.at), to, tc, i);
      return true;
    }
    if n == 2 && PageSize in d.mem[to][i].flags {
      LargeEntry(d.mem, d.data, to, i);
      ok := CopyLarge(d, to, tc, i);
      return;
    }
    ok := CopyBehind(d, to, tc, n, i);
  }

  // What copying slot i does.
  ghost predicate SlotDone(m: Memory, d: Data, w: Memory, e: Data, at: map<nat, Place>, to: nat, tc: nat, i: nat,
                           n: nat) {
    && SlotCopied(m, d, w, to, tc, i, n)
    && OthersKept(m, w, to, tc, i, n)
    && Framed(m, w, at, to, tc)
    && Swept(d, e, LargeSlot(m, d.Keys, to, i, n))
  }

  // CopySlot above the leaves: gives the copy a table of its own, and copies
  // the tables behind the slot.
  method CopyBehind(d: PageDirectories, to: nat, tc: nat, n: nat, i: nat) returns (ok: bool)
    requires Ready(d, to, tc, n) && n > 1 && i < Slots(n) && SlotPlain(d.mem, d.data, to, i, n)
    requires Present in d.mem[to][i].flags && (n == 2 ==> PageSize !in d.mem[to][i].flags)
    modifies d`mem, d`pool, d`at, d`data
    ensures Served(ok, old(d.pool), d.pool, SlotTables(old(d.mem), to, i, n))
    ensures ok ==> Frames(d.mem, d.pool) == Frames(old(d.mem), old(d.pool))
    ensures ok ==> Ready(d, to, tc, n) && d.Extends(old(d.mem), old(d.at), {})
    ensures ok ==> SlotDone(old(d.mem), old(d.data), d.mem, d.data, old(d.at), to, tc, i, n)
    decreases n, 0
  {
    ghost var m0, at0, d0 := d.mem, d.at, d.data;
    var child, own: nat;
    ok, child, own := GiveTable(d, to, tc, n, i);
    if !ok { return; }
    ghost var m1, at1 := d.mem, d.at;
    ok := CopyBelow(d, child, own, n - 1, m0, at0, old(d.pool), to, tc, i);
    if !ok { return; }
    GivenKept(m0, m1, d.mem, at0, at1, d.at, to, tc, i, n, child, own);
    BehindDone(m0, m1, d.mem, at0, at1, d0, d.data, to, tc, i, n, child, own);
  }

  // CopyTables for the tables behind a slot.
  method CopyBelow(d: PageDirectories, child: nat, own: nat, n: nat, ghost m0: Memory, ghost at0: map<nat, Place>,
                   ghost pool0: seq<nat>, ghost to: nat, ghost tc: nat, ghost i: nat)
    returns (ok: bool)
    requires d.Valid() && n < 4 && ReadyBehind(d.mem, d.data, d.at, child, own, n)
    requires Given(m0, d.mem, at0, d.at, to, tc, i, n + 1, child, own) && Served(true, pool0, d.pool, 1)
    modifies d`mem, d`pool, d`at, d`data
    ensures Served(ok, pool0, d.pool, SlotTables(m0, to, i, n + 1))
    ensures ok ==> Frames(d.mem, d.pool) == Frames(old(d.mem), old(d.pool))
    ensures ok ==> d.Valid() && d.Extends(old(d.mem), old(d.at), {})
    ensures ok ==> Halfway(old(d.mem), old(d.data), d.mem, d.data, old(d.at), child, own, Slots(n), n)
    decreases n, 5
  {
    ghost var m, at, left := d.mem, d.at, d.pool;
    ok := CopyTables(d, child, own, n);
    BehindServed(ok, pool0, left, d.pool, m0, m, at0, at, to, tc, i, n + 1, child, own);
  }

  // Gives slot i of the copy a table of its own, next to the original's.
  method GiveTable(d: PageDirectories, to: nat, tc: nat, n: nat, i: nat) returns (ok: bool, child: nat, own: nat)
    requires Ready(d, to, tc, n) && n > 1 && i < Slots(n) && SlotPlain(d.mem, d.data, to, i, n)
    requires Present in d.mem[to][i].flags && (n == 2 ==> PageSize !in d.mem[to][i].flags)
    modifies d`mem, d`pool, d`at
    ensures Served(ok, old(d.pool), d.pool, 1)
    ensures ok ==> Frames(d.mem, d.pool) == Frames(old(d.mem), old(d.pool))
    ensures ok ==> d.Valid() && ReadyBehind(d.mem, d.data, d.at, child, own, n - 1)
    ensures ok ==> Given(old(d.mem), d.mem, old(d.at), d.at, to, tc, i, n, child, own)
  {
    ghost var m0, at0 := d.mem, d.at;
    child, own := d.mem[to][i].frame, 0;
    SmallEntry(m0, d.data, to, i, n);
    ok := d.AllocInto(tc, i, {User});
    if !ok { return; }
    own := d.mem[tc][i].frame;
    FirstFrame(m0, d.mem, old(d.pool));
    Gave(m0, d.mem, d.data, at0, d.at, to, tc, i, n, own);
  }

  // The tables behind the slot can be copied: the one of the copy is empty.
  ghost predicate ReadyBehind(m: Memory, d: Data, at: map<nat, Place>, child: nat, own: nat, n: nat) {
    && child in m && own in m && child in at && own in at && Twins(at[child], at[own], n) && TablePlain(m, d, child, n)
    && |m[own]| == ENTRIES && forall k :: 0 <= k < ENTRIES ==> Present !in m[own][k].flags
  }

  lemma {:induction false} Gave(m: Memory, w: Memory, d: Data, at: map<nat, Place>, ats: map<nat, Place>, to: nat,
                                tc: nat, i: nat, n: nat, own: nat)
    requires Tree(m, at) && to in m && tc in m && 2 <= n && Twins(at[to], at[tc], n) && i < Slots(n) && own !in m
    requires LeadsOn(at[to], m[to][i]) && SlotPlain(m, d, to, i, n)
    requires w == Grow(m, tc, i, own, {Present, ReadWrite} + {User}) && ats == at[own := Under(at[tc], i)]
    ensures ReadyBehind(w, d, ats, m[to][i].frame, own, n - 1)
    ensures Given(m, w, at, ats, to, tc, i, n, m[to][i].frame, own)
  {
    assert Hangs(m, at, to, i);
    Descend(m, w, d, at, to, tc, i, n);
  }

  // The copy's slot i got the fresh table own, the original's leads to child.
  ghost predicate Given(m: Memory, w: Memory, at: map<nat, Place>, ats: map<nat, Place>, to: nat, tc: nat, i: nat,
                        n: nat, child: nat, own: nat) {
    && Tree(m, at) && to in m && tc in m && 2 <= n && Twins(at[to], at[tc], n) && i < Slots(n) && own !in m
    && LeadsOn(at[to], m[to][i]) && child == m[to][i].frame && child in m
    && w == Grow(m, tc, i, own, {Present, ReadWrite} + {User}) && ats == at[own := Under(at[tc], i)]
    && (forall p :: |p| == n - 1 && Indices(p) ==> Walk(w, child, p) == Walk(m, child, p))
  }

  lemma {:induction false} GivenKept(m: Memory, m1: Memory, w: Memory, at: map<nat, Place>, at1: map<nat, Place>,
                                     ats: map<nat, Place>, to: nat, tc: nat, i: nat, n: nat, child: nat, own: nat)
    requires Given(m, m1, at, at1, to, tc, i, n, child, own) && Extended(m1, at1, w, ats, {})
    ensures Extended(m, at, w, ats, {}) && to in w && to in ats && tc in w && tc in ats && Twins(ats[to], ats[tc], n)
  {
  }

  lemma {:induction false} BehindCount(m: Memory, w: Memory, at: map<nat, Place>, ats: map<nat, Place>, to: nat,
                                       tc: nat, i: nat, n: nat, child: nat, own: nat)
    requires Given(m, w, at, ats, to, tc, i, n, child, own)
    ensures SlotTables(m, to, i, n) == 1 + Tables(w, child, ENTRIES, n - 1)
  {
    assert Hangs(m, at, to, i);
    BehindTables(m, w, at, child, n - 1);
  }

  lemma {:induction false} BehindServed(ok: bool, pool0: seq<nat>, left: seq<nat>, pool: seq<nat>, m: Memory,
                                        w: Memory, at: map<nat, Place>, ats: map<nat, Place>, to: nat, tc: nat, i: nat,
                                        n: nat, child: nat, own: nat)
    requires Given(m, w, at, ats, to, tc, i, n, child, own) && Served(true, pool0, left, 1)
    requires var k := n - 1; Served(ok, left, pool, Tables(w, child, ENTRIES, k))
    ensures Served(ok, pool0, pool, SlotTables(m, to, i, n))
  {
    BehindCount(m, w, at, ats, to, tc, i, n, child, own);
    ServedTwice(true, ok, pool0, left, pool, 1, Tables(w, child, ENTRIES, n - 1));
  }

  // All slots but i of both tables lead where they did, and the entries of both
  // are as they were.
  ghost predicate OthersKept(m: Memory, w: Memory, to: nat, tc: nat, i: nat, n: nat) {
    && tc in m && tc in w && |m[tc]| == |w[tc]| == ENTRIES && to in m && to in w && |m[to]| == |w[to]| == ENTRIES
    && (forall k :: 0 <= k < ENTRIES && k != i ==> w[tc][k] == m[tc][k] && w[to][k] == m[to][k])
    && (forall k :: 0 <= k < Slots(n) && k != i ==> SlotKept(m, w, to, k, n) && SlotKept(m, w, tc, k, n))
    && (forall k :: 0 <= k < Slots(n) && k != i ==> SlotCounted(m, w, to, k, n))
  }

  // Only tables at or below to, and tc, have changed.
  ghost predicate Framed(m: Memory, w: Memory, at: map<nat, Place>, to: nat, tc: nat)
  {
    to in at && forall x :: x in m && x in at && x != tc && !Below(at[to], at[x]) ==> x in w && w[x] == m[x]
  }

  // The slots below i are copied, the others are still to come.
  ghost predicate Halfway(m: Memory, d: Data, w: Memory, e: Data, at: map<nat, Place>, to: nat, tc: nat, i: nat, n: nat)
    requires i <= Slots(n)
  {
    && EntriesLeft(m, w, to, tc, i)
    && SlotsCopied(m, d, w, to, tc, i, n) && SlotsLeft(m, w, to, tc, i, n) && SlotsToCount(m, w, to, i, n)
    && Framed(m, w, at, to, tc)
    && Swept(d, e, LargeBelow(m, d.Keys, to, i, n))
  }

  ghost predicate EntriesLeft(m: Memory, w: Memory, to: nat, tc: nat, i: nat) {
    && to in m && tc in m && to in w && tc in w && |m[to]| == |w[to]| == |m[tc]| == |w[tc]| == ENTRIES
    && (forall k :: i <= k < ENTRIES ==> w[to][k] == m[to][k] && w[tc][k] == m[tc][k])
  }

  ghost predicate SlotsCopied(m: Memory, d: Data, w: Memory, to: nat, tc: nat, i: nat, n: nat)
    requires i <= Slots(n)
  {
    to in m && |m[to]| == ENTRIES &&
    forall k :: 0 <= k < i && (n < 4 || Present in m[to][k].flags) ==> SlotCopied(m, d, w, to, tc, k, n)
  }

  ghost predicate SlotsLeft(m: Memory, w: Memory, to: nat, tc: nat, i: nat, n: nat) {
    to in m && |m[to]| == ENTRIES &&
    forall k :: 0 <= k < Slots(n) && (i <= k || Present !in m[to][k].flags) ==>
      SlotKept(m, w, to, k, n) && SlotKept(m, w, tc, k, n)
  }

  predicate SlotsToCount(m: Memory, w: Memory, to: nat, i: nat, n: nat) {
    forall k :: i <= k < Slots(n) ==> SlotCounted(m, w, to, k, n)
  }

  // The loop that began in state m0, d0, at0, pool0 has done i slots.
  ghost predicate Underway(d: PageDirectories, m0: Memory, d0: Data, at0: map<nat, Place>, pool0: seq<nat>, to: nat,
                           tc: nat, i: nat, n: nat)
    reads d
  {
    && Served(true, pool0, d.pool, Tables(m0, to, i, n)) && Frames(d.mem, d.pool) == Frames(m0, pool0)
    && Ready(d, to, tc, n) && d.Extends(m0, at0, {}) && at0.Keys == m0.Keys
    && i <= Slots(n) && Halfway(m0, d0, d.mem, d.data, at0, to, tc, i, n)
  }

  // A copy that is no directory begins empty.
  ghost predicate AllAbsent(m: Memory, tc: nat, n: nat) {
    n < 4 ==> tc in m && forall i :: 0 <= i < |m[tc]| ==> Present !in m[tc][i].flags
  }

  // The loop over the slots of one level; to keeps its upper entries.
  method CopyTables(d: PageDirectories, to: nat, tc: nat, n: nat) returns (ok: bool)
    requires Ready(d, to, tc, n)
    requires TablePlain(d.mem, d.data, to, n)
    requires AllAbsent(d.mem, tc, n)
    modifies d`mem, d`pool, d`at, d`data
    ensures Served(ok, old(d.pool), d.pool, Tables(old(d.mem), to, Slots(n), n))
    ensures ok ==> Frames(d.mem, d.pool) == Frames(old(d.mem), old(d.pool))
    ensures ok ==> Ready(d, to, tc, n) && d.Extends(old(d.mem), old(d.at), {})
    ensures ok ==> Halfway(old(d.mem), old(d.data), d.mem, d.data, old(d.at), to, tc, Slots(n), n)
    decreases n, 4
  {
    ghost var m0, d0, at0, pool0 := d.mem, d.data, d.at, d.pool;
    NothingYet(m0, d0, at0, to, tc, n);
    ok := CopySlots(d, to, tc, n, m0, d0, at0, pool0);
  }

  method CopySlots(d: PageDirectories, to: nat, tc: nat, n: nat, ghost m0: Memory, ghost d0: Data,
                   ghost at0: map<nat, Place>, ghost pool0: seq<nat>)
    returns (ok: bool)
    requires Underway(d, m0, d0, at0, pool0, to, tc, 0, n) && TablePlain(m0, d0, to, n)
    requires AllAbsent(m0, tc, n)
    modifies d`mem, d`pool, d`at, d`data
    ensures !ok ==> Served(false, pool0, d.pool, Tables(m0, to, Slots(n), n))
    ensures ok ==> Underway(d, m0, d0, at0, pool0, to, tc, Slots(n), n)
    decreases n, 3
  {
    ok := true;
    var i: nat := 0;
    while i < Slots(n)
      invariant ok && Underway(d, m0, d0, at0, pool0, to, tc, i, n)
    {
      ok := PassSlot(d, to, tc, n, i, m0, d0, at0, pool0);
      if !ok { return; }
      i := i + 1;
    }
  }

  const LEVELS: nat := 4

  // All tables below slot 511 that a copy of directory o needs.
  function AllTables(m: Memory, o: nat): nat {
    Tables(m, o, Slots(LEVELS), LEVELS)
  }

  // The pool after one more slot; when it is used up there, it is too small.
  lemma {:induction false} NextServed(ok: bool, pool0: seq<nat>, left: seq<nat>, pool: seq<nat>, m: Memory, to: nat,
                                      i: nat, n: nat)
    requires i < Slots(n) && Served(true, pool0, left, Tables(m, to, i, n))
    requires Served(ok, left, pool, SlotTables(m, to, i, n))
    ensures if ok then Served(true, pool0, pool, Tables(m, to, i + 1, n))
      else Served(false, pool0, pool, Tables(m, to, Slots(n), n))
  {
    ServedTwice(true, ok, pool0, left, pool, Tables(m, to, i, n), SlotTables(m, to, i, n));
    MoreTables(m, to, i + 1, Slots(n), n);
  }

  lemma {:induction false} NothingYet(m: Memory, d: Data, at: map<nat, Place>, to: nat, tc: nat, n: nat)
    requires to in m && tc in m && |m[to]| == |m[tc]| == ENTRIES && to in at
    ensures Halfway(m, d, m, d, at, to, tc, 0, n)
  {
  }

  // The body of the loop, which began in state m0, d0, at0.
  method PassSlot(d: PageDirectories, to: nat, tc: nat, n: nat, i: nat, ghost m0: Memory, ghost d0: Data,
                  ghost at0: map<nat, Place>, ghost pool0: seq<nat>)
    returns (ok: bool)
    requires i < Slots(n) && Underway(d, m0, d0, at0, pool0, to, tc, i, n)
    requires TablePlain(m0, d0, to, n) && AllAbsent(m0, tc, n)
    modifies d`mem, d`pool, d`at, d`data
    ensures !ok ==> Served(false, pool0, d.pool, Tables(m0, to, Slots(n), n))
    ensures ok ==> Underway(d, m0, d0, at0, pool0, to, tc, i + 1, n)
    decreases n, 2
  {
    ok := true;
    ghost var m, e, at, left := d.mem, d.data, d.at, d.pool;
    if Present in d.mem[to][i].flags {
      KeptPlain(m0, d0, m, e, to, i, n);
      assert SlotCounted(m0, m, to, i, n);
      ok := CopySlot(d, to, tc, n, i);
      NextServed(ok, pool0, left, d.pool, m0, to, i, n);
      if !ok { return; }
      NextSlot(m0, d0, m, e, d.mem, d.data, at0, at, to, tc, i, n);
    } else {
      AbsentSlot(m0, d0, m, e, at0, to, tc, i, n);
      NextServed(true, pool0, left, d.pool, m0, to, i, n);
    }
  }

  lemma {:induction false} KeptPlain(m0: Memory, d0: Data, m: Memory, e: Data, to: nat, i: nat, n: nat)
    requires i < Slots(n) && TablePlain(m0, d0, to, n) && SlotKept(m0, m, to, i, n) && e.Keys == d0.Keys
    ensures SlotPlain(m, e, to, i, n)
  {
    assert SlotPlain(m0, d0, to, i, n);
    forall q | |q| == n - 1 && Indices(q) ensures Plain(m, e, to, [i] + q) { assert Plain(m0, d0, to, [i] + q); }
  }

  // After slot i was copied, too.
  lemma {:induction false} NextSlot(m0: Memory, d0: Data, m: Memory, e: Data, w: Memory, g: Data, at0: map<nat, Place>,
                                    at: map<nat, Place>, to: nat, tc: nat, i: nat, n: nat)
    requires i < Slots(n) && Halfway(m0, d0, m, e, at0, to, tc, i, n)
    requires SlotDone(m, e, w, g, at, to, tc, i, n) && Present in m[to][i].flags
    requires at0.Keys == m0.Keys && forall x :: x in m0 ==> x in m && x in at && at[x] == at0[x]
    ensures Halfway(m0, d0, w, g, at0, to, tc, i + 1, n)
  {
    NextEntries(m0, m, w, to, tc, i, n);
    NextCopies(m0, d0, m, e, w, LargeBelow(m0, d0.Keys, to, i, n), to, tc, i, n);
    NextLeft(m0, m, w, to, tc, i, n);
    NextFramed(m0, m, w, at0, at, to, tc);
    NextCounts(m0, m, w, to, i, n);
    KeptLarge(m0, m, d0.Keys, to, i, n);
    SweptTwice(d0, e, g, LargeBelow(m0, d0.Keys, to, i, n), LargeSlot(m0, d0.Keys, to, i, n));
  }

  lemma {:induction false} NextEntries(m0: Memory, m: Memory, w: Memory, to: nat, tc: nat, i: nat, n: nat)
    requires EntriesLeft(m0, m, to, tc, i) && OthersKept(m, w, to, tc, i, n)
    ensures EntriesLeft(m0, w, to, tc, i + 1)
  {
  }

  lemma {:induction false} NextCopies(m0: Memory, d0: Data, m: Memory, e: Data, w: Memory, fs: set<nat>, to: nat,
                                      tc: nat, i: nat, n: nat)
    requires i < Slots(n) && SlotsCopied(m0, d0, m, to, tc, i, n) && SlotKept(m0, m, to, i, n)
    requires SlotCopied(m, e, w, to, tc, i, n) && Swept(d0, e, fs) && OthersKept(m, w, to, tc, i, n)
    ensures SlotsCopied(m0, d0, w, to, tc, i + 1, n)
  {
    forall k | 0 <= k < i + 1 && (n < 4 || Present in m0[to][k].flags) ensures SlotCopied(m0, d0, w, to, tc, k, n) {
      if k < i {
        CopiedThenKept(m0, d0, m, w, to, tc, k, n);
      } else {
        KeptThenCopied(m0, d0, m, e, w, fs, to, tc, k, n);
      }
    }
  }

  lemma {:induction false} NextLeft(m0: Memory, m: Memory, w: Memory, to: nat, tc: nat, i: nat, n: nat)
    requires SlotsLeft(m0, m, to, tc, i, n) && OthersKept(m, w, to, tc, i, n)
    requires i < Slots(n) && Present in m0[to][i].flags
    ensures SlotsLeft(m0, w, to, tc, i + 1, n)
  {
    forall k | 0 <= k < Slots(n) && (i + 1 <= k || Present !in m0[to][k].flags)
      ensures SlotKept(m0, w, to, k, n) && SlotKept(m0, w, tc, k, n)
    {
      KeptTwice(m0, m, w, to, k, n);
      KeptTwice(m0, m, w, tc, k, n);
    }
  }

  lemma {:induction false} NextCounts(m0: Memory, m: Memory, w: Memory, to: nat, i: nat, n: nat)
    requires SlotsToCount(m0, m, to, i, n)
    requires forall k :: 0 <= k < Slots(n) && k != i ==> SlotCounted(m, w, to, k, n)
    ensures SlotsToCount(m0, w, to, i + 1, n)
  {
    forall k | i + 1 <= k < Slots(n) ensures SlotCounted(m0, w, to, k, n) {
      assert SlotCounted(m0, m, to, k, n) && SlotCounted(m, w, to, k, n);
    }
  }

  lemma {:induction false} NextFramed(m0: Memory, m: Memory, w: Memory, at0: map<nat, Place>, at: map<nat, Place>,
                                      to: nat, tc: nat)
    requires Framed(m0, m, at0, to, tc) && Framed(m, w, at, to, tc) && to in m0
    requires at0.Keys == m0.Keys && forall x :: x in m0 ==> x in m && x in at && at[x] == at0[x]
    ensures Framed(m0, w, at0, to, tc)
  {
  }

  lemma {:induction false} CopiedThenKept(m0: Memory, d: Data, m: Memory, w: Memory, to: nat, tc: nat, k: nat, n: nat)
    requires SlotCopied(m0, d, m, to, tc, k, n) && SlotKept(m, w, to, k, n) && SlotKept(m, w, tc, k, n)
    ensures SlotCopied(m0, d, w, to, tc, k, n)
  {
    forall q | |q| == n - 1 && Indices(q)
      ensures Copied(d, Walk(m0, to, [k] + q), Walk(w, to, [k] + q), Walk(w, tc, [k] + q), Last([k] + q))
    {
      assert Walk(w, to, [k] + q) == Walk(m, to, [k] + q) && Walk(w, tc, [k] + q) == Walk(m, tc, [k] + q);
    }
  }

  lemma {:induction false} KeptThenCopied(m0: Memory, d: Data, m: Memory, e: Data, w: Memory, fs: set<nat>, to: nat,
                                          tc: nat, k: nat, n: nat)
    requires SlotKept(m0, m, to, k, n) && SlotCopied(m, e, w, to, tc, k, n) && Swept(d, e, fs)
    ensures SlotCopied(m0, d, w, to, tc, k, n)
  {
    forall q | |q| == n - 1 && Indices(q)
      ensures Copied(d, Walk(m0, to, [k] + q), Walk(w, to, [k] + q), Walk(w, tc, [k] + q), Last([k] + q))
    {
      assert Walk(m, to, [k] + q) == Walk(m0, to, [k] + q);
      CopiedBefore(d, e, fs, Walk(m, to, [k] + q), Walk(w, to, [k] + q), Walk(w, tc, [k] + q), Last([k] + q));
    }
  }

  lemma {:induction false} KeptTwice(m0: Memory, m: Memory, w: Memory, t: nat, k: nat, n: nat)
    requires SlotKept(m0, m, t, k, n) && SlotKept(m, w, t, k, n)
    ensures SlotKept(m0, w, t, k, n)
  {
    forall q | |q| == n - 1 && Indices(q) ensures Walk(w, t, [k] + q) == Walk(m0, t, [k] + q) {
      assert Walk(w, t, [k] + q) == Walk(m, t, [k] + q);
    }
  }

  lemma {:induction false} KeptLarge(m: Memory, w: Memory, fs: set<nat>, t: nat, k: nat, n: nat)
    requires forall q :: |q| == n - 1 && Indices(q) ==> Walk(w, t, [k] + q) == Walk(m, t, [k] + q)
    ensures LargeSlot(w, fs, t, k, n) == LargeSlot(m, fs, t, k, n)
  {
    forall f ensures HitSlot(w, t, k, n, f) <==> HitSlot(m, t, k, n, f) {
      if HitSlot(m, t, k, n, f) {
        var q :| |q| == n - 1 && Indices(q) && LargeAt(m, t, [k] + q, f);
        assert LargeAt(w, t, [k] + q, f);
      }
      if HitSlot(w, t, k, n, f) {
        var q :| |q| == n - 1 && Indices(q) && LargeAt(w, t, [k] + q, f);
        assert LargeAt(m, t, [k] + q, f);
      }
    }
  }

  // A slot that is not present leads nowhere in both directories.
  lemma {:induction false} AbsentSlot(m0: Memory, d: Data, m: Memory, e: Data, at: map<nat, Place>, to: nat, tc: nat,
                                      i: nat, n: nat)
    requires 1 <= n <= 4 && i < Slots(n) && Halfway(m0, d, m, e, at, to, tc, i, n)
    requires Present !in m[to][i].flags && (n < 4 ==> Present !in m0[tc][i].flags)
    ensures Halfway(m0, d, m, e, at, to, tc, i + 1, n)
  {
    AbsentCopies(m0, d, m, to, tc, i, n);
    AbsentLarge(m0, d.Keys, to, i, n);
  }

  lemma {:induction false} AbsentCopies(m0: Memory, d: Data, m: Memory, to: nat, tc: nat, i: nat, n: nat)
    requires 1 <= n <= 4 && i < Slots(n) && EntriesLeft(m0, m, to, tc, i) && SlotsCopied(m0, d, m, to, tc, i, n)
    requires Present !in m[to][i].flags && (n < 4 ==> Present !in m0[tc][i].flags)
    ensures SlotsCopied(m0, d, m, to, tc, i + 1, n)
  {
    if n < 4 { AbsentCopied(m0, d, m, to, tc, i, n); }
  }

  lemma {:induction false} AbsentCopied(m0: Memory, d: Data, m: Memory, to: nat, tc: nat, i: nat, n: nat)
    requires to in m0 && to in m && tc in m && i < |m0[to]| && i < |m[to]| && i < |m[tc]| && n > 0
    requires Present !in m0[to][i].flags && Present !in m[to][i].flags && Present !in m[tc][i].flags
    ensures SlotCopied(m0, d, m, to, tc, i, n)
  {
    forall q | |q| == n - 1 && Indices(q)
      ensures Copied(d, Walk(m0, to, [i] + q), Walk(m, to, [i] + q), Walk(m, tc, [i] + q), Last([i] + q))
    {
      assert ([i] + q)[0] == i;
    }
  }

  lemma {:induction false} AbsentLarge(m: Memory, fs: set<nat>, t: nat, i: nat, n: nat)
    requires t in m && i < |m[t]| && Present !in m[t][i].flags
    ensures LargeSlot(m, fs, t, i, n) == {}
  {
    forall f ensures !HitSlot(m, t, i, n, f) {
      forall q | |q| == n - 1 && Indices(q) ensures !LargeAt(m, t, [i] + q, f) { assert ([i] + q)[0] == i; }
    }
  }

  // ----- Leaves

  method CopyLeaf(d: PageDirectories, to: nat, tc: nat, i: nat)
    requires Ready(d, to, tc, 1) && i < ENTRIES && Present in d.mem[to][i].flags
    modifies d`mem
    ensures Ready(d, to, tc, 1)
    ensures d.mem == Store(Store(old(d.mem), to, i, CowEntry(old(d.mem)[to][i])), tc, i, CowEntry(old(d.mem)[to][i]))
  {
    StoreLeaf(d, to, i, CowEntry(d.mem[to][i]));
    StoreLeaf(d, tc, i, d.mem[to][i]);
  }

  method StoreLeaf(d: PageDirectories, t: nat, i: nat, e: Entry)
    requires d.Valid() && t in d.mem && Depth(d.at[t]) == 3 && i < ENTRIES
    modifies d`mem
    ensures d.Valid() && d.mem == Store(old(d.mem), t, i, e)
  {
    LeafTree(d.mem, d.at, t, i, e);
    LeafShape(d.mem, d.at, d.boot, t, i, e);
    d.mem := Store(d.mem, t, i, e);
  }

  lemma {:induction false} LeafCopied(m: Memory, d: Data, w: Memory, at: map<nat, Place>, to: nat, tc: nat, i: nat)
    requires to in m && tc in m && |m[to]| == |m[tc]| == ENTRIES && i < ENTRIES && to != tc && to in at
    requires Present in m[to][i].flags && at[to].Lower?
    requires w == Store(Store(m, to, i, CowEntry(m[to][i])), tc, i, CowEntry(m[to][i]))
    ensures SlotDone(m, d, w, d, at, to, tc, i, 1)
  {
    forall q | |q| == 0 && Indices(q)
      ensures Copied(d, Walk(m, to, [i] + q), Walk(w, to, [i] + q), Walk(w, tc, [i] + q), Last([i] + q))
    {
      assert [i] + q == [i];
    }
    assert LargeSlot(m, d.Keys, to, i, 1) == {};
  }

  // ----- 2 MB pages

  // Flags and address of a 2 MB page are kept but for the copy-on-write bits,
  // and then the copy's entry is overwritten by a fresh table. The innermost
  // loop runs over the page itself.
  method CopyLarge(d: PageDirectories, to: nat, tc: nat, i: nat) returns (ok: bool)
    requires Ready(d, to, tc, 2) && i < ENTRIES && {Present, PageSize} <= d.mem[to][i].flags
    requires d.mem[to][i].frame in d.data
    modifies d`mem, d`pool, d`at, d`data
    ensures Served(ok, old(d.pool), d.pool, 1)
    ensures ok ==> Frames(d.mem, d.pool) == Frames(old(d.mem), old(d.pool))
    ensures ok ==> Ready(d, to, tc, 2) && d.Extends(old(d.mem), old(d.at), {})
    ensures ok ==> SlotDone(old(d.mem), old(d.data), d.mem, d.data, old(d.at), to, tc, i, 2)
  {
    ghost var m, d0, at := d.mem, d.data, d.at;
    var e := d.mem[to][i];
    StoreLarge(d, to, i, CowLarge(e));
    StoreLarge(d, tc, i, CowLarge(e));
    ok := d.AllocInto(tc, i, {User});
    if !ok { return; }
    var own := d.mem[tc][i].frame;
    CopyWords(d, e.frame, own);
    LargeMemory(m, d.mem, to, tc, i, own, d0[e.frame]);
    FirstFrame(m, d.mem, old(d.pool));
    LargeDone(m, d0, d.mem, d.data, at, d.at, to, tc, i, own);
  }

  method StoreLarge(d: PageDirectories, t: nat, i: nat, e: Entry)
    requires d.Valid() && t in d.mem && Depth(d.at[t]) == 2 && i < ENTRIES && {Present, PageSize} <= e.flags
    modifies d`mem
    ensures d.Valid() && d.mem == Store(old(d.mem), t, i, e)
  {
    LargeTree(d.mem, d.at, t, i, e);
    LargeShape(d.mem, d.at, d.boot, t, i, e);
    d.mem := Store(d.mem, t, i, e);
  }

  // The innermost loop, over the words of a data page.
  method CopyWords(d: PageDirectories, f: nat, own: nat)
    requires d.Valid() && f in d.data && own in d.mem && Depth(d.at[own]) == 3
    requires d.mem[own] == seq(ENTRIES, _ => EMPTY)
    modifies d`mem, d`data
    ensures d.Valid()
    ensures d.mem == old(d.mem)[own := OwnTable(old(d.data)[f])]
    ensures d.data == old(d.data)[f := Rewritten(old(d.data)[f])]
  {
    ghost var words, m, d0 := d.data[f], d.mem, d.data;
    ghost var table, page := m[own], words;
    var k := 0;
    while k < ENTRIES
      invariant 0 <= k <= ENTRIES && d.Valid() && own in d.mem && f in d.data
      invariant d.mem == m[own := table] && d.data == d0[f := page]
      invariant WordsDone(words, table, page, k)
    {
      NextWord(words, table, page, k);
      CopyWord(d, f, own, k);
      if Present in page[k].flags {
        SetTwice(m, own, table, table[k := CowEntry(page[k])]);
        SetTwice(d0, f, page, page[k := CowEntry(page[k])]);
        table, page := table[k := CowEntry(page[k])], page[k := CowEntry(page[k])];
      }
      k := k + 1;
    }
    AllWords(words, table, page);
  }

  lemma {:induction false} SetTwice(m: map<nat, seq<Entry>>, t: nat, x: seq<Entry>, y: seq<Entry>)
    ensures m[t := x][t := y] == m[t := y]
  {
  }

  // The table and the words of the page after the loop passed k words.
  ghost predicate WordsDone(words: seq<Entry>, table: seq<Entry>, page: seq<Entry>, k: nat) {
    && |words| == |table| == |page| == ENTRIES
    && (forall j :: 0 <= j < ENTRIES ==> table[j] == if j < k then OwnTable(words)[j] else EMPTY)
    && (forall j :: 0 <= j < ENTRIES ==> page[j] == if j < k then Rewritten(words)[j] else words[j])
  }

  lemma {:induction false} NextWord(words: seq<Entry>, table: seq<Entry>, page: seq<Entry>, k: nat)
    requires WordsDone(words, table, page, k) && k < ENTRIES
    ensures table[k] == EMPTY
    ensures if Present in page[k].flags then WordsDone(words, table[k := CowEntry(page[k])], page[k := CowEntry(page[k])], k + 1)
      else WordsDone(words, table, page, k + 1)
  {
  }

  lemma {:induction false} AllWords(words: seq<Entry>, table: seq<Entry>, page: seq<Entry>)
    requires WordsDone(words, table, page, ENTRIES)
    ensures table == OwnTable(words) && page == Rewritten(words)
  {
  }

  method CopyWord(d: PageDirectories, f: nat, own: nat, k: nat)
    requires d.Valid() && f in d.data && own in d.mem && Depth(d.at[own]) == 3 && k < ENTRIES && d.mem[own][k] == EMPTY
    modifies d`mem, d`data
    ensures d.Valid()
    ensures var x := old(d.data)[f][k];
      if Present in x.flags then
        d.mem == Store(old(d.mem), own, k, CowEntry(x)) && d.data == old(d.data)[f := old(d.data)[f][k := CowEntry(x)]]
      else
        d.mem == old(d.mem) && d.data == old(d.data)
  {
    var x := d.data[f][k];
    if Present in x.flags {
      d.WriteWord(f, k, CowEntry(x));
      StoreLeaf(d, own, k, d.data[f][k]);
    }
  }

  // The tables after a 2 MB page was copied.
  function LargeCopy(m: Memory, to: nat, tc: nat, i: nat, f: nat, words: seq<Entry>): Memory
    requires to in m && tc in m && i < |m[to]| && i < |m[tc]|
  {
    m[to := m[to][i := CowLarge(m[to][i])]][tc := m[tc][i := Entry(f, {Present, ReadWrite, User})]][f := OwnTable(words)]
  }

  lemma {:induction false} LargeMemory(m: Memory, w: Memory, to: nat, tc: nat, i: nat, f: nat, words: seq<Entry>)
    requires to in m && tc in m && i < |m[to]| && i < |m[tc]| && to != tc && f !in m
    requires var e := CowLarge(m[to][i]);
      var x := Store(Store(m, to, i, e), tc, i, e);
      w == Grow(x, tc, i, f, {Present, ReadWrite} + {User})[f := OwnTable(words)]
    ensures w == LargeCopy(m, to, tc, i, f, words)
  {
    assert {Present, ReadWrite} + {User} == {Present, ReadWrite, User};
    var v := LargeCopy(m, to, tc, i, f, words);
    assert w.Keys == v.Keys;
    assert w[tc] == v[tc];
  }

  lemma {:induction false} LargeKept(m: Memory, w: Memory, at: map<nat, Place>, ats: map<nat, Place>, to: nat, tc: nat,
                                     i: nat, f: nat, words: seq<Entry>)
    requires Tree(m, at) && to in m && tc in m && Twins(at[to], at[tc], 2) && i < ENTRIES && f !in m
    requires w == LargeCopy(m, to, tc, i, f, words) && ats == at[f := Under(at[tc], i)]
    ensures Extended(m, at, w, ats, {}) && to in w && tc in w && Twins(ats[to], ats[tc], 2)
  {
  }

  lemma {:induction false} LargeDone(m: Memory, d: Data, w: Memory, e: Data, at: map<nat, Place>, ats: map<nat, Place>,
                                     to: nat, tc: nat, i: nat, f: nat)
    requires Tree(m, at) && to in m && tc in m && Twins(at[to], at[tc], 2) && i < ENTRIES && f !in m
    requires {Present, PageSize} <= m[to][i].flags && m[to][i].frame in d && |d[m[to][i].frame]| == ENTRIES
    requires w == LargeCopy(m, to, tc, i, f, d[m[to][i].frame])
    requires e == d[m[to][i].frame := Rewritten(d[m[to][i].frame])] && ats == at[f := Under(at[tc], i)]
    ensures SlotDone(m, d, w, e, at, to, tc, i, 2)
    ensures Extended(m, at, w, ats, {}) && to in w && tc in w && Twins(ats[to], ats[tc], 2)
  {
    LargeKept(m, w, at, ats, to, tc, i, f, d[m[to][i].frame]);
    LargeCopied(m, d, w, to, tc, i, f);
    LargeOthers(m, w, at, to, tc, to, i, f);
    LargeOthers(m, w, at, to, tc, tc, i, f);
    OneLarge(m, d.Keys, to, i);
  }

  lemma {:induction false} LargeCopied(m: Memory, d: Data, w: Memory, to: nat, tc: nat, i: nat, f: nat)
    requires to in m && tc in m && to != tc && |m[to]| == |m[tc]| == ENTRIES && i < ENTRIES && f !in m
    requires {Present, PageSize} <= m[to][i].flags && m[to][i].frame in d && |d[m[to][i].frame]| == ENTRIES
    requires w == LargeCopy(m, to, tc, i, f, d[m[to][i].frame])
    ensures SlotCopied(m, d, w, to, tc, i, 2)
  {
    forall q | |q| == 1 && Indices(q)
      ensures Copied(d, Walk(m, to, [i] + q), Walk(w, to, [i] + q), Walk(w, tc, [i] + q), Last([i] + q))
    {
      var p := [i] + q;
      assert p[0] == i && p[1..] == q && Last(p) == q[0];
      assert Walk(w, f, q) == if Present in w[f][q[0]].flags then Map(w[f][q[0]], ALL_FLAGS, 0) else Fault;
    }
  }

  // Other slots of to and of tc lead to tables that have not changed.
  lemma {:induction false} LargeOthers(m: Memory, w: Memory, at: map<nat, Place>, to: nat, tc: nat, t: nat, i: nat,
                                       f: nat)
    requires Tree(m, at) && to in m && tc in m && Twins(at[to], at[tc], 2) && i < ENTRIES && f !in m && (t == to || t == tc)
    requires forall x :: x in m && x != to && x != tc ==> x in w && w[x] == m[x]
    requires t in w && |w[t]| == ENTRIES && forall k :: 0 <= k < ENTRIES && k != i ==> w[t][k] == m[t][k]
    ensures forall k :: 0 <= k < Slots(2) && k != i ==> SlotKept(m, w, t, k, 2) && SlotCounted(m, w, t, k, 2)
  {
    forall k | 0 <= k < Slots(2) && k != i ensures SlotKept(m, w, t, k, 2) && SlotCounted(m, w, t, k, 2) {
      SameSlotTables(m, w, at, t, k, 2);
      forall q | |q| == 1 && Indices(q) ensures Walk(w, t, [k] + q) == Walk(m, t, [k] + q) {
        assert ([k] + q)[0] == k && ([k] + q)[1..] == q;
        assert Hangs(m, at, t, k);
      }
    }
  }

  lemma {:induction false} OneLarge(m: Memory, fs: set<nat>, t: nat, i: nat)
    requires t in m && i < |m[t]| && {Present, PageSize} <= m[t][i].flags && m[t][i].frame in fs
    ensures LargeSlot(m, fs, t, i, 2) == {m[t][i].frame}
  {
    forall q | |q| == 1 && Indices(q) ensures LargeAt(m, t, [i] + q, m[t][i].frame) { assert ([i] + q)[0] == i; }
    assert |[0]| == 1 && Indices([0]) && LargeAt(m, t, [i] + [0], m[t][i].frame);
    forall f | HitSlot(m, t, i, 2, f) ensures f == m[t][i].frame {
      var q :| |q| == 1 && Indices(q) && LargeAt(m, t, [i] + q, f);
    }
  }

  lemma {:induction false} LargeEntry(m: Memory, d: Data, t: nat, i: nat)
    requires t in m && i < |m[t]| && SlotPlain(m, d, t, i, 2) && {Present, PageSize} <= m[t][i].flags
    ensures m[t][i].frame in d
  {
    assert |[0]| == 1 && Indices([0]) && ([i] + [0])[0] == i;
    assert Plain(m, d, t, [i] + [0]);
  }

  // ----- Tables behind a slot

  // A walk that enters a table through slot i.
  function Joined(t: Translation, flags: set<Flag>): Translation {
    match t
    case Fault => Fault
    case Map(e, above, rest) => Map(e, above * flags, rest)
  }

  lemma {:induction false} WalkDown(m: Memory, t: nat, i: nat, q: seq<nat>)
    requires t in m && i < |m[t]| && 1 <= |q| <= 3 && Present in m[t][i].flags
    requires |q| == 3 || PageSize !in m[t][i].flags
    ensures Walk(m, t, [i] + q) == Joined(Walk(m, m[t][i].frame, q), m[t][i].flags)
  {
    assert ([i] + q)[0] == i && ([i] + q)[1..] == q;
  }

  // No entry with three levels to go is a 1 GB page.
  lemma {:induction false} SmallEntry(m: Memory, d: Data, t: nat, i: nat, n: nat)
    requires t in m && i < |m[t]| && 2 <= n <= 4 && SlotPlain(m, d, t, i, n) && Present in m[t][i].flags
    requires n == 2 ==> PageSize !in m[t][i].flags
    ensures n == 4 || PageSize !in m[t][i].flags
  {
    var q := seq(n - 1, _ => 0);
    assert ([i] + q)[0] == i && Indices(q);
    var x := Walk(m, t, [i] + q);
    assert Plain(m, d, t, [i] + q);
  }

  // The table behind slot i is ready to be copied once the copy has its own.
  lemma {:induction false} Descend(m: Memory, w: Memory, d: Data, at: map<nat, Place>, to: nat, tc: nat, i: nat, n: nat)
    requires Tree(m, at) && to in m && tc in m && 2 <= n && Twins(at[to], at[tc], n) && i < Slots(n)
    requires LeadsOn(at[to], m[to][i]) && SlotPlain(m, d, to, i, n)
    requires forall x :: x in m && x != tc ==> x in w && w[x] == m[x]
    ensures var c := m[to][i].frame;
      && c in m && at[c] == Under(at[to], i)
      && (forall p :: |p| == n - 1 && Indices(p) ==> Walk(w, c, p) == Walk(m, c, p))
      && TablePlain(w, d, c, n - 1)
  {
    assert Hangs(m, at, to, i);
    var c := m[to][i].frame;
    forall p | |p| == n - 1 && Indices(p) ensures Walk(w, c, p) == Walk(m, c, p) && Plain(w, d, c, p) {
      Avoid(m, w, at, {tc}, c, p);
      WalkDown(m, to, i, p);
      assert Plain(m, d, to, [i] + p);
    }
    var l := n - 1;
    forall k | 0 <= k < Slots(l) ensures SlotPlain(w, d, c, k, l) {
      forall q | |q| == l - 1 && Indices(q) ensures Plain(w, d, c, [k] + q) {
        assert Indices([k] + q);
      }
    }
  }

  // The tables behind slot i were copied, from m1 to w.
  lemma {:induction false} BehindDone(m0: Memory, m1: Memory, w: Memory, at: map<nat, Place>, at1: map<nat, Place>,
                                      d: Data, e: Data, to: nat, tc: nat, i: nat, n: nat, child: nat, own: nat)
    requires Given(m0, m1, at, at1, to, tc, i, n, child, own)
    requires var l := n - 1; Halfway(m1, d, w, e, at1, child, own, Slots(l), l)
    ensures SlotDone(m0, d, w, e, at, to, tc, i, n)
  {
    var l := n - 1;
    FrameUp(m0, m1, w, at, at1, to, tc, i, n, child, own);
    CopiedUp(m0, m1, w, at, at1, d, to, tc, i, n, child, own);
    TableKept(m0, w, at, to, tc, to, i, n);
    TableKept(m0, w, at, to, tc, tc, i, n);
    LargeUp(m0, m1, d.Keys, to, i, n, child);
  }

  // Nothing else has changed.
  lemma {:induction false} FrameUp(m0: Memory, m1: Memory, w: Memory, at: map<nat, Place>, at1: map<nat, Place>,
                                   to: nat, tc: nat, i: nat, n: nat, child: nat, own: nat)
    requires Given(m0, m1, at, at1, to, tc, i, n, child, own) && Framed(m1, w, at1, child, own)
    ensures tc in w && w[tc] == m0[tc][i := Entry(own, {Present, ReadWrite, User})]
    ensures to in w && w[to] == m0[to]
    ensures forall x :: x in m0 && x != tc && !Below(Under(at[to], i), at[x]) ==> x in w && w[x] == m0[x]
    ensures Framed(m0, w, at, to, tc)
  {
    assert Hangs(m0, at, to, i);
    assert {Present, ReadWrite} + {User} == {Present, ReadWrite, User};
  }

  lemma {:induction false} CopiedUp(m0: Memory, m1: Memory, w: Memory, at: map<nat, Place>, at1: map<nat, Place>,
                                    d: Data, to: nat, tc: nat, i: nat, n: nat, child: nat, own: nat)
    requires Given(m0, m1, at, at1, to, tc, i, n, child, own)
    requires tc in w && w[tc] == m0[tc][i := Entry(own, {Present, ReadWrite, User})] && to in w && w[to] == m0[to]
    requires var l := n - 1; forall k :: 0 <= k < ENTRIES ==> SlotCopied(m1, d, w, child, own, k, l)
    ensures SlotCopied(m0, d, w, to, tc, i, n)
  {
    forall q | |q| == n - 1 && Indices(q)
      ensures Copied(d, Walk(m0, to, [i] + q), Walk(w, to, [i] + q), Walk(w, tc, [i] + q), Last([i] + q))
    {
      var l := n - 1;
      assert q == [q[0]] + q[1..] && Indices(q[1..]);
      assert SlotCopied(m1, d, w, child, own, q[0], l);
      CopiedThrough(m0, m1, w, d, to, tc, i, child, own, q);
    }
  }

  lemma {:induction false} CopiedThrough(m0: Memory, m1: Memory, w: Memory, d: Data, to: nat, tc: nat, i: nat,
                                         child: nat, own: nat, q: seq<nat>)
    requires to in m0 && tc in m0 && i < |m0[to]| && i < |m0[tc]| && 1 <= |q| <= 3
    requires Present in m0[to][i].flags && child == m0[to][i].frame && (|q| == 3 || PageSize !in m0[to][i].flags)
    requires tc in w && w[tc] == m0[tc][i := Entry(own, {Present, ReadWrite, User})] && to in w && w[to] == m0[to]
    requires Walk(m1, child, q) == Walk(m0, child, q)
    requires Copied(d, Walk(m1, child, q), Walk(w, child, q), Walk(w, own, q), Last(q))
    ensures Copied(d, Walk(m0, to, [i] + q), Walk(w, to, [i] + q), Walk(w, tc, [i] + q), Last([i] + q))
  {
    WalkDown(m0, to, i, q);
    WalkDown(w, to, i, q);
    WalkDown(w, tc, i, q);
    assert Last([i] + q) == Last(q);
    CopiedJoined(d, Walk(m1, child, q), Walk(w, child, q), Walk(w, own, q), Last(q), m0[to][i].flags);
  }

  lemma {:induction false} CopiedJoined(d: Data, a: Translation, b: Translation, c: Translation, j: nat,
                                        flags: set<Flag>)
    requires Copied(d, a, b, c, j)
    ensures Copied(d, Joined(a, flags), Joined(b, flags), Joined(c, {Present, ReadWrite, User}), j)
  {
  }

  // The 2 MB pages behind slot i are those below its table.
  lemma {:induction false} LargeUp(m0: Memory, m1: Memory, fs: set<nat>, to: nat, i: nat, n: nat, child: nat)
    requires to in m0 && i < |m0[to]| && 2 <= n <= 4 && Present in m0[to][i].flags && child == m0[to][i].frame
    requires n == 4 || PageSize !in m0[to][i].flags
    requires forall p :: |p| == n - 1 && Indices(p) ==> Walk(m1, child, p) == Walk(m0, child, p)
    ensures LargeSlot(m0, fs, to, i, n) == LargeBelow(m1, fs, child, ENTRIES, n - 1)
  {
    var l := n - 1;
    forall f ensures f in LargeSlot(m0, fs, to, i, n) <==> f in LargeBelow(m1, fs, child, ENTRIES, l) {
      InLargeBelow(m1, fs, child, ENTRIES, l, f);
      HitThrough(m0, m1, to, i, n, child, f);
    }
  }

  lemma {:induction false} HitThrough(m0: Memory, m1: Memory, to: nat, i: nat, n: nat, child: nat, f: nat)
    requires to in m0 && i < |m0[to]| && 2 <= n <= 4 && Present in m0[to][i].flags && child == m0[to][i].frame
    requires n == 4 || PageSize !in m0[to][i].flags
    requires forall p :: |p| == n - 1 && Indices(p) ==> Walk(m1, child, p) == Walk(m0, child, p)
    ensures var l := n - 1; HitSlot(m0, to, i, n, f) <==> exists k :: 0 <= k < ENTRIES && HitSlot(m1, child, k, l, f)
  {
    var l := n - 1;
    if HitSlot(m0, to, i, n, f) {
      var q :| |q| == n - 1 && Indices(q) && LargeAt(m0, to, [i] + q, f);
      HitDown(m0, m1, to, i, n, child, q, f);
    }
    forall k: nat | k < ENTRIES && HitSlot(m1, child, k, l, f) ensures HitSlot(m0, to, i, n, f) {
      HitSlotUp(m0, m1, to, i, n, child, k, f);
    }
  }

  lemma {:induction false} HitSlotUp(m0: Memory, m1: Memory, to: nat, i: nat, n: nat, child: nat, k: nat, f: nat)
    requires to in m0 && i < |m0[to]| && 2 <= n <= 4 && Present in m0[to][i].flags && child == m0[to][i].frame
    requires n == 4 || PageSize !in m0[to][i].flags
    requires forall p :: |p| == n - 1 && Indices(p) ==> Walk(m1, child, p) == Walk(m0, child, p)
    requires var l := n - 1; k < ENTRIES && HitSlot(m1, child, k, l, f)
    ensures HitSlot(m0, to, i, n, f)
  {
    var q: seq<nat> :| |q| == n - 2 && Indices(q) && LargeAt(m1, child, [k] + q, f);
    var p := [k] + q;
    assert Indices(p);
    HitUp(m0, m1, to, i, n, child, p, f);
  }

  lemma {:induction false} HitDown(m0: Memory, m1: Memory, to: nat, i: nat, n: nat, child: nat, q: seq<nat>, f: nat)
    requires to in m0 && i < |m0[to]| && 2 <= n <= 4 && Present in m0[to][i].flags && child == m0[to][i].frame
    requires n == 4 || PageSize !in m0[to][i].flags
    requires |q| == n - 1 && Indices(q) && Walk(m1, child, q) == Walk(m0, child, q) && LargeAt(m0, to, [i] + q, f)
    ensures var l := n - 1; HitSlot(m1, child, q[0], l, f)
  {
    WalkDown(m0, to, i, q);
    assert q == [q[0]] + q[1..] && Indices(q[1..]);
    assert LargeAt(m1, child, [q[0]] + q[1..], f);
  }

  lemma {:induction false} HitUp(m0: Memory, m1: Memory, to: nat, i: nat, n: nat, child: nat, q: seq<nat>, f: nat)
    requires to in m0 && i < |m0[to]| && 2 <= n <= 4 && Present in m0[to][i].flags && child == m0[to][i].frame
    requires n == 4 || PageSize !in m0[to][i].flags
    requires |q| == n - 1 && Indices(q) && Walk(m1, child, q) == Walk(m0, child, q) && LargeAt(m1, child, q, f)
    ensures HitSlot(m0, to, i, n, f)
  {
    WalkDown(m0, to, i, q);
    assert LargeAt(m0, to, [i] + q, f);
  }

  // Slots other than i of to and of tc do not meet what has changed.
  lemma {:induction false} TableKept(m: Memory, w: Memory, at: map<nat, Place>, to: nat, tc: nat, t: nat, i: nat,
                                     n: nat)
    requires Tree(m, at) && to in m && tc in m && (t == to || t == tc) && 2 <= n && Twins(at[to], at[tc], n) && i < Slots(n)
    requires t in w && |w[t]| == ENTRIES && forall k :: 0 <= k < ENTRIES && k != i ==> w[t][k] == m[t][k]
    requires forall x :: x in m && x != tc && !Below(Under(at[to], i), at[x]) ==> x in w && w[x] == m[x]
    ensures forall k :: 0 <= k < Slots(n) && k != i ==> SlotKept(m, w, t, k, n) && SlotCounted(m, w, t, k, n)
  {
    var xs := set x | x in m && (x == tc || Below(Under(at[to], i), at[x]));
    forall k | 0 <= k < Slots(n) && k != i ensures SlotKept(m, w, t, k, n) && SlotCounted(m, w, t, k, n) {
      AsideTables(m, w, at, to, tc, t, i, k, n);
      forall q | |q| == n - 1 && Indices(q) ensures Walk(w, t, [k] + q) == Walk(m, t, [k] + q) {
        assert ([k] + q)[0] == k && ([k] + q)[1..] == q;
        if LeadsOn(at[t], m[t][k]) {
          assert Hangs(m, at, t, k);
          var c := m[t][k].frame;
          forall x | x in m && x in xs ensures !Reaches(at[c], at[x]) {
            Sideways(at[to], at[tc], at[t], i, k, at[x], n);
          }
          Avoid(m, w, at, xs, c, q);
        }
      }
    }
  }

  lemma {:induction false} AsideTables(m: Memory, w: Memory, at: map<nat, Place>, to: nat, tc: nat, t: nat, i: nat,
                                       k: nat, n: nat)
    requires Tree(m, at) && to in m && tc in m && (t == to || t == tc) && 2 <= n && Twins(at[to], at[tc], n)
    requires i < Slots(n) && k < Slots(n) && k != i && t in w && |w[t]| == ENTRIES && w[t][k] == m[t][k]
    requires forall x :: x in m && x != tc && !Below(Under(at[to], i), at[x]) ==> x in w && w[x] == m[x]
    ensures SlotTables(w, t, k, n) == SlotTables(m, t, k, n)
  {
    forall x | x in m && x in at && Reaches(Under(at[t], k), at[x]) ensures x in w && w[x] == m[x] {
      if x == tc || Below(Under(at[to], i), at[x]) { Sideways(at[to], at[tc], at[t], i, k, at[x], n); }
    }
    SameSlotTables(m, w, at, t, k, n);
  }

  // What lies behind slot k of a table is not behind slot i of to, nor tc.
  lemma {:induction false} Sideways(to: Place, tc: Place, t: Place, i: nat, k: nat, x: Place, n: nat)
    requires 2 <= n && Twins(to, tc, n) && (t == to || t == tc) && i != k && i < Slots(n) && k < Slots(n)
    requires x == tc || Below(Under(to, i), x)
    ensures !Reaches(Under(t, k), x)
  {
    assert Under(to, i).path[|to.path|] == i && Under(t, k).path[|to.path|] == k;
    if Below(Under(to, i), x) { assert x.path[|to.path|] == i; }
  }

  // ----- Whole directories

  ghost predicate LowerSmall(m: Memory, r: nat) {
    forall v: nat :: Path(v)[0] != 511 ==> Small(m, r, Path(v))
  }

  const DEVICE_FLAGS: set<Flag> := {Present, ReadWrite}

  ghost predicate IsDevice(devices: seq<nat>, n: nat, v: nat) {
    exists k :: 0 <= k < n <= |devices| && PageOf(devices[k] * 0x1000) == PageOf(v)
  }

  // The page of v is mapped to a device when it is that of one of the first n,
  // and to nothing otherwise.
  ghost predicate DeviceAt(m: Memory, c: nat, devices: seq<nat>, n: nat, v: nat) {
    if IsDevice(devices, n, v) then
      exists k :: 0 <= k < n <= |devices| && PageOf(devices[k] * 0x1000) == PageOf(v)
        && LeafAt(m, c, Path(v), Entry(devices[k], DEVICE_FLAGS), DEVICE_FLAGS)
    else
      Walk(m, c, Path(v)) == Fault
  }

  ghost predicate OnlyDevices(m: Memory, c: nat, devices: seq<nat>, n: nat) {
    forall v: nat :: Path(v)[0] != 511 ==> DeviceAt(m, c, devices, n, v)
  }

  lemma {:induction false} DevicesSmall(m: Memory, c: nat, devices: seq<nat>, n: nat)
    requires OnlyDevices(m, c, devices, n)
    ensures LowerSmall(m, c)
  {
    forall v: nat | Path(v)[0] != 511 ensures Small(m, c, Path(v)) { assert DeviceAt(m, c, devices, n, v); }
  }

  // amd64_build_dir: a directory with the kernel's slot 511 that maps the given
  // devices at their own addresses, and nothing else.
  method BuildDir(d: PageDirectories, devices: seq<nat>) returns (ok: bool, c: nat)
    requires d.Valid()
    requires forall k :: 0 <= k < |devices| ==> Path(devices[k] * 0x1000)[0] != 511
    modifies d`mem, d`pool, d`at, d`data
    ensures Served(ok, old(d.pool), d.pool, 1 + |TablePaths(devices, |devices|)|)
    ensures ok ==> Frames(d.mem, d.pool) == Frames(old(d.mem), old(d.pool))
    ensures ok ==> d.Valid() && d.Extends(old(d.mem), old(d.at), {c}) && d.data == old(d.data)
    ensures ok ==> c !in old(d.mem) && c in d.mem && d.at[c] == Lower(c, [])
    ensures ok ==> d.mem[c][511] == old(d.mem)[d.boot.pml4][511] && KernelSame(old(d.mem), d.mem, d.boot, c)
    ensures ok ==> OthersSame(old(d.mem), d.mem, old(d.at), c)
    ensures ok ==> OnlyDevices(d.mem, c, devices, |devices|) && LowerSmall(d.mem, c)
  {
    ghost var m0, at0, d0, pool0 := d.mem, d.at, d.data, d.pool;
    ok, c := EmptyDir(d, devices);
    if !ok {
      FewerPaths(devices, 0, |devices|);
      return;
    }
    ok := MapDevices(d, c, devices, m0, at0, d0, pool0);
    if !ok { return; }
    DevicesSmall(d.mem, c, devices, |devices|);
    BuiltKernel(m0, d.mem, at0, d.boot, c);
  }

  method MapDevices(d: PageDirectories, c: nat, devices: seq<nat>, ghost m0: Memory, ghost at0: map<nat, Place>,
                    ghost d0: Data, ghost pool0: seq<nat>)
    returns (ok: bool)
    requires Built(d, m0, at0, d0, pool0, c, devices, 0)
    requires forall k :: 0 <= k < |devices| ==> Path(devices[k] * 0x1000)[0] != 511
    modifies d`mem, d`pool, d`at, d`data
    ensures !ok ==> Served(false, pool0, d.pool, 1 + |TablePaths(devices, |devices|)|)
    ensures ok ==> Built(d, m0, at0, d0, pool0, c, devices, |devices|)
  {
    ok := true;
    var k: nat := 0;
    while k < |devices|
      invariant k <= |devices| && ok && Built(d, m0, at0, d0, pool0, c, devices, k)
    {
      ok := PassDevice(d, c, devices, k, m0, at0, d0, pool0);
      if !ok { return; }
      k := k + 1;
    }
  }

  // The directory c, which was begun in state m0, at0, d0, pool0, with k devices.
  ghost predicate Built(d: PageDirectories, m0: Memory, at0: map<nat, Place>, d0: Data, pool0: seq<nat>, c: nat,
                        devices: seq<nat>, k: nat)
    requires k <= |devices|
    reads d
  {
    && Served(true, pool0, d.pool, 1 + |TablePaths(devices, k)|) && TablesAt(d.mem, c, TablePaths(devices, k))
    && d.Valid() && d.Extends(m0, at0, {c}) && d.data == d0 && at0.Keys == m0.Keys
    && Frames(d.mem, d.pool) == Frames(m0, pool0)
    && c in d.mem && d.at[c] == Lower(c, []) && d.boot.pml4 in m0 && |m0[d.boot.pml4]| == ENTRIES
    && d.mem[c][511] == m0[d.boot.pml4][511]
    && OnlyDevices(d.mem, c, devices, k) && OthersSame(m0, d.mem, at0, c)
  }

  // The body of the loop.
  method PassDevice(d: PageDirectories, c: nat, devices: seq<nat>, k: nat, ghost m0: Memory,
                    ghost at0: map<nat, Place>, ghost d0: Data, ghost pool0: seq<nat>)
    returns (ok: bool)
    requires k < |devices| && Path(devices[k] * 0x1000)[0] != 511 && Built(d, m0, at0, d0, pool0, c, devices, k)
    modifies d`mem, d`pool, d`at, d`data
    ensures !ok ==> Served(false, pool0, d.pool, 1 + |TablePaths(devices, |devices|)|)
    ensures ok ==> Built(d, m0, at0, d0, pool0, c, devices, k + 1)
  {
    ghost var m, ats, left := d.mem, d.at, d.pool;
    ok := MapDevice(d, c, devices, k);
    DeviceServed(ok, pool0, left, d.pool, devices, k);
    if !ok { return; }
    OthersTwice(m0, m, d.mem, at0, ats, c);
  }

  // In slot 511 the directory c translates as the boot directory did.
  ghost predicate KernelSame(m: Memory, w: Memory, b: Boot, c: nat) {
    forall v: nat :: Path(v)[0] == 511 ==> Walk(w, c, Path(v)) == Walk(m, b.pml4, Path(v))
  }

  lemma {:induction false} BuiltKernel(m: Memory, w: Memory, at: map<nat, Place>, b: Boot, c: nat)
    requires Tree(m, at) && Shape(m, at, b) && OthersSame(m, w, at, c) && c !in m
    requires c in w && |w[c]| == ENTRIES && w[c][511] == m[b.pml4][511]
    ensures KernelSame(m, w, b, c)
  {
    forall v: nat | Path(v)[0] == 511 ensures Walk(w, c, Path(v)) == Walk(m, b.pml4, Path(v)) {
      SameForOthers(m, w, at, c, b.pml4, Path(v));
    }
    assert w[b.pml4] == m[b.pml4];
    SlotKernel(m, w, b, c);
  }

  lemma {:induction false} SlotKernel(m: Memory, w: Memory, b: Boot, c: nat)
    requires c in w && |w[c]| == ENTRIES && b.pml4 in w && |w[b.pml4]| == ENTRIES && w[c][511] == w[b.pml4][511]
    requires forall v: nat :: Path(v)[0] == 511 ==> Walk(w, b.pml4, Path(v)) == Walk(m, b.pml4, Path(v))
    ensures KernelSame(m, w, b, c)
  {
  }

  // The page of the directory itself, with slot 511 taken from __pml4.
  method EmptyDir(d: PageDirectories, ghost devices: seq<nat>) returns (ok: bool, c: nat)
    requires d.Valid()
    modifies d`mem, d`pool, d`at
    ensures Served(ok, old(d.pool), d.pool, 1 + |TablePaths(devices, 0)|)
    ensures ok ==> TablesAt(d.mem, c, TablePaths(devices, 0))
    ensures ok ==> Frames(d.mem, d.pool) == Frames(old(d.mem), old(d.pool))
    ensures ok ==> d.Valid() && d.Extends(old(d.mem), old(d.at), {c})
    ensures ok ==> c !in old(d.mem) && c in d.mem && d.at[c] == Lower(c, [])
    ensures ok ==> d.mem[c][511] == old(d.mem)[d.boot.pml4][511]
    ensures ok ==> OthersSame(old(d.mem), d.mem, old(d.at), c) && OnlyDevices(d.mem, c, devices, 0)
  {
    assert TablePaths(devices, 0) == {};
    if d.pool == [] { return false, 0; }
    c := d.pool[0];
    NewDirectory(d.mem, d.at, d.boot, c, devices);
    var kernel := d.mem[d.boot.pml4][511];
    d.pool := d.pool[1..];
    d.mem := d.mem[c := seq(511, _ => EMPTY) + [kernel]];
    d.at := d.at[c := Lower(c, [])];
    ok := true;
    FirstFrame(old(d.mem), d.mem, old(d.pool));
    NoTables(d.mem, c, devices);
  }

  method MapDevice(d: PageDirectories, c: nat, devices: seq<nat>, k: nat) returns (ok: bool)
    requires d.Valid() && c in d.mem && d.at[c] == Lower(c, []) && k < |devices|
    requires Path(devices[k] * 0x1000)[0] != 511 && OnlyDevices(d.mem, c, devices, k)
    requires TablesAt(d.mem, c, TablePaths(devices, k))
    modifies d`mem, d`pool, d`at, d`data
    ensures Served(ok, old(d.pool), d.pool, Absent(TablePaths(devices, k), Path(devices[k] * 0x1000)))
    ensures ok ==> Frames(d.mem, d.pool) == Frames(old(d.mem), old(d.pool))
    ensures ok ==> TablesAt(d.mem, c, TablePaths(devices, k + 1))
    ensures ok ==> d.Valid() && d.Extends(old(d.mem), old(d.at), {}) && d.data == old(d.data)
    ensures ok ==> OnlyDevices(d.mem, c, devices, k + 1) && OthersSame(old(d.mem), d.mem, old(d.at), c)
  {
    DevicesSmall(d.mem, c, devices, k);
    ok := d.MapPage(c, devices[k], devices[k] * 0x1000, DEVICE_FLAGS);
    if !ok { return; }
    assert DEVICE_FLAGS + {Present} == DEVICE_FLAGS;
    MadeFrames(old(d.mem), old(d.at), d.mem, c, Path(devices[k] * 0x1000), Entry(devices[k], DEVICE_FLAGS), DEVICE_FLAGS,
      old(d.pool));
    DeviceTables(old(d.mem), old(d.at), c, devices, k, Entry(devices[k], DEVICE_FLAGS), DEVICE_FLAGS, old(d.pool));
    NextDevice(d.boot, old(d.mem), old(d.at), d.mem, c, devices, k);
  }

  lemma {:induction false} NextDevice(b: Boot, m: Memory, at: map<nat, Place>, w: Memory, c: nat, devices: seq<nat>,
                                      k: nat)
    requires c in m && c in at && Depth(at[c]) == 0 && c != b.pml4 && k < |devices|
    requires OnlyDevices(m, c, devices, k) && Path(devices[k] * 0x1000)[0] != 511
    requires var v, e := devices[k] * 0x1000, Entry(devices[k], DEVICE_FLAGS);
      LeafAt(w, c, Path(v), e, DEVICE_FLAGS) && MappedExactly(b, m, at, w, c, v, e, DEVICE_FLAGS)
    ensures OnlyDevices(w, c, devices, k + 1)
  {
    var v, e := devices[k] * 0x1000, Entry(devices[k], DEVICE_FLAGS);
    forall x: nat | Path(x)[0] != 511 ensures DeviceAt(w, c, devices, k + 1, x) {
      assert DeviceAt(m, c, devices, k, x);
      assert MappedAt(b, m, w, c, v, e, DEVICE_FLAGS, c, Path(x));
      PathIsPage(v, x);
      StillDevice(m, w, c, devices, k, x);
    }
  }

  lemma {:induction false} StillDevice(m: Memory, w: Memory, c: nat, devices: seq<nat>, k: nat, x: nat)
    requires DeviceAt(m, c, devices, k, x) && k < |devices|
    requires if PageOf(devices[k] * 0x1000) == PageOf(x) then
        LeafAt(w, c, Path(x), Entry(devices[k], DEVICE_FLAGS), DEVICE_FLAGS)
      else
        Widened(Walk(m, c, Path(x)), Walk(w, c, Path(x)), DEVICE_FLAGS)
    ensures DeviceAt(w, c, devices, k + 1, x)
  {
    if PageOf(devices[k] * 0x1000) != PageOf(x) && IsDevice(devices, k, x) {
      var i :| 0 <= i < k && PageOf(devices[i] * 0x1000) == PageOf(x)
        && LeafAt(m, c, Path(x), Entry(devices[i], DEVICE_FLAGS), DEVICE_FLAGS);
      assert LeafAt(w, c, Path(x), Entry(devices[i], DEVICE_FLAGS), DEVICE_FLAGS);
    }
  }

  lemma {:induction false} OthersTwice(m0: Memory, m: Memory, w: Memory, at0: map<nat, Place>, at: map<nat, Place>,
                                       c: nat)
    requires OthersSame(m0, m, at0, c) && OthersSame(m, w, at, c)
    requires forall s :: s in m0 && s in at0 ==> s in at && at[s] == at0[s]
    ensures OthersSame(m0, w, at0, c)
  {
  }

  lemma {:induction false} NewDirectory(m: Memory, at: map<nat, Place>, b: Boot, c: nat, devices: seq<nat>)
    requires Tree(m, at) && Shape(m, at, b) && c !in m
    ensures var w, ats := m[c := seq(511, _ => EMPTY) + [m[b.pml4][511]]], at[c := Lower(c, [])];
      && Tree(w, ats) && Shape(w, ats, b) && Extended(m, at, w, ats, {c})
      && OthersSame(m, w, at, c) && OnlyDevices(w, c, devices, 0)
  {
    var w, ats := m[c := seq(511, _ => EMPTY) + [m[b.pml4][511]]], at[c := Lower(c, [])];
    assert Leads(m, at, b.pml4, 511, b.pdpt);
    forall s, j | s in w && 0 <= j < ENTRIES ensures Hangs(w, ats, s, j) {
      if s != c { assert Hangs(m, at, s, j); }
    }
    NewShape(m, at, b, c, w);
  }

  lemma {:induction false} NewShape(m: Memory, at: map<nat, Place>, b: Boot, c: nat, w: Memory)
    requires Tree(m, at) && Shape(m, at, b) && c !in m && w == m[c := seq(511, _ => EMPTY) + [m[b.pml4][511]]]
    requires Leads(m, at, b.pml4, 511, b.pdpt)
    ensures Shape(w, at[c := Lower(c, [])], b)
  {
    var ats := at[c := Lower(c, [])];
    forall x, j, f | Leads(w, ats, x, j, f)
      ensures if x == c then j == 511 && f == b.pdpt else Leads(m, at, x, j, f)
    {
    }
    assert forall x, j, f :: Leads(m, at, x, j, f) ==> Leads(w, ats, x, j, f);
    assert Leads(w, ats, c, 511, b.pdpt);
  }

  // amd64_duplicate_dir of the directory o, which cr3 holds and which
  // amd64_build_dir has made.
  method Duplicate(d: PageDirectories, o: nat, devices: seq<nat>) returns (ok: bool, c: nat)
    requires d.Valid() && o in d.mem && d.at[o] == Lower(o, [])
    requires TablePlain(d.mem, d.data, o, 4)
    requires forall k :: 0 <= k < |devices| ==> Path(devices[k] * 0x1000)[0] != 511
    modifies d`mem, d`pool, d`at, d`data
    ensures Served(ok, old(d.pool), d.pool, TablesOfCopy(old(d.mem), o, devices))
    ensures ok ==> Frames(d.mem, d.pool) == Frames(old(d.mem), old(d.pool))
    ensures ok ==> d.Valid() && d.Extends(old(d.mem), old(d.at), {c})
    ensures ok ==> c !in old(d.mem) && c in d.mem && d.at[c] == Lower(c, [])
    ensures ok ==> d.mem[c][511] == old(d.mem)[d.boot.pml4][511] && KernelSame(old(d.mem), d.mem, d.boot, c)
    ensures ok ==> Duplicated(old(d.mem), old(d.data), d.mem, o, c, devices)
    ensures ok ==> LowerSmall(d.mem, c) && (LowerSmall(old(d.mem), o) ==> LowerSmall(d.mem, o))
    ensures ok ==> (IsCopy(old(d.mem), d.mem, o, c) <==> LowerSmall(old(d.mem), o))
    ensures ok ==> Swept(old(d.data), d.data, LargeBelow(old(d.mem), old(d.data).Keys, o, 511, 4))
    ensures ok ==> forall s, v: nat :: s in old(d.mem) && Depth(old(d.at)[s]) == 0 && (s != o || Path(v)[0] == 511) ==>
      Walk(d.mem, s, Path(v)) == Walk(old(d.mem), s, Path(v))
  {
    ghost var m0, d0 := d.mem, d.data;
    ok, c := BuildDir(d, devices);
    if !ok {
      LessThanCopy(old(d.pool), d.pool, m0, o, devices);
      return;
    }
    ghost var m, at := d.mem, d.at;
    BuiltSame(m0, m, old(d.at), d0, o, c);
    CountsSame(m0, m, old(d.at), o, c);
    ok := CopyLower(d, o, c, devices, old(d.pool), TablesOfCopy(m0, o, devices));
    if !ok { return; }
    CopyMeans(m0, m, d0, d.mem, d.data, at, o, c, devices);
    CopyExactly(m0, d0, d.mem, o, c, devices);
    CopySmall(m0, d0, d.mem, o, c, devices);
    RestSame(m0, m, d.mem, old(d.at), at, d.boot, o, c);
  }

  // Frames that a duplicate of o takes: those of a new directory, and its tables.
  ghost function TablesOfCopy(m: Memory, o: nat, devices: seq<nat>): nat {
    1 + |TablePaths(devices, |devices|)| + AllTables(m, o)
  }

  lemma {:induction false} LessThanCopy(before: seq<nat>, after: seq<nat>, m: Memory, o: nat, devices: seq<nat>)
    requires Served(false, before, after, 1 + |TablePaths(devices, |devices|)|)
    ensures Served(false, before, after, TablesOfCopy(m, o, devices))
  {
  }

  lemma {:induction false} CopyServed(ok: bool, pool0: seq<nat>, left: seq<nat>, pool: seq<nat>, m: Memory, o: nat,
                                      devices: seq<nat>)
    requires Served(true, pool0, left, 1 + |TablePaths(devices, |devices|)|) && Served(ok, left, pool, AllTables(m, o))
    ensures Served(ok, pool0, pool, TablesOfCopy(m, o, devices))
  {
    ServedTwice(true, ok, pool0, left, pool, 1 + |TablePaths(devices, |devices|)|, AllTables(m, o));
  }

  // CopyTables for a whole directory, after it was built; n frames in all.
  method CopyLower(d: PageDirectories, o: nat, c: nat, ghost devices: seq<nat>, ghost pool0: seq<nat>, ghost n: nat)
    returns (ok: bool)
    requires Ready(d, o, c, LEVELS) && TablePlain(d.mem, d.data, o, LEVELS)
    requires Served(true, pool0, d.pool, 1 + |TablePaths(devices, |devices|)|) && n == TablesOfCopy(d.mem, o, devices)
    modifies d`mem, d`pool, d`at, d`data
    ensures Served(ok, pool0, d.pool, n)
    ensures ok ==> Frames(d.mem, d.pool) == Frames(old(d.mem), old(d.pool))
    ensures ok ==> Ready(d, o, c, LEVELS) && d.Extends(old(d.mem), old(d.at), {})
    ensures ok ==> Halfway(old(d.mem), old(d.data), d.mem, d.data, old(d.at), o, c, 511, LEVELS)
  {
    ghost var m, left := d.mem, d.pool;
    ok := CopyTables(d, o, c, LEVELS);
    CopyServed(ok, pool0, left, d.pool, m, o, devices);
  }

  lemma {:induction false} RestSame(m0: Memory, m: Memory, w: Memory, at0: map<nat, Place>, at: map<nat, Place>,
                                    b: Boot, o: nat, c: nat)
    requires Tree(m0, at0) && Shape(m0, at0, b) && OthersSame(m0, m, at0, c) && Extended(m0, at0, m, at, {c}) && c !in m0
    requires Tree(m, at) && o in m0 && c in m && at[o] == Lower(o, []) && at[c] == Lower(c, []) && m[o] == m0[o]
    requires Framed(m, w, at, o, c) && o in w && c in w && |w[o]| == |w[c]| == ENTRIES
    requires w[o][511] == m[o][511] && w[c][511] == m[c][511] == m0[b.pml4][511]
    ensures forall s, v: nat :: s in m0 && Depth(at0[s]) == 0 && (s != o || Path(v)[0] == 511) ==>
      Walk(w, s, Path(v)) == Walk(m0, s, Path(v))
    ensures KernelSame(m0, w, b, c)
  {
    forall s, v: nat | s in m0 && Depth(at0[s]) == 0 && (s != o || Path(v)[0] == 511)
      ensures Walk(w, s, Path(v)) == Walk(m0, s, Path(v))
    {
      SameForOthers(m0, m, at0, c, s, Path(v));
      OutsideSame(m, w, at, o, c, s, Path(v));
    }
    assert m[b.pml4] == m0[b.pml4] && w[b.pml4] == m[b.pml4];
    SlotKernel(m0, w, b, c);
  }

  lemma {:induction false} CountsSame(m: Memory, w: Memory, at: map<nat, Place>, o: nat, c: nat)
    requires Tree(m, at) && OthersSame(m, w, at, c) && c !in m && o in m && at[o] == Lower(o, [])
    ensures AllTables(w, o) == AllTables(m, o)
  {
    SameTables(m, w, at, o, Slots(LEVELS), LEVELS);
  }

  // The new directory has not changed what the others translate.
  lemma {:induction false} BuiltSame(m0: Memory, m: Memory, at: map<nat, Place>, d: Data, o: nat, c: nat)
    requires Tree(m0, at) && OthersSame(m0, m, at, c) && c !in m0 && o in m0 && at[o] == Lower(o, [])
    requires TablePlain(m0, d, o, 4)
    ensures m[o] == m0[o] && TablePlain(m, d, o, 4)
    ensures forall p :: |p| == 4 && Indices(p) ==> Walk(m, o, p) == Walk(m0, o, p)
  {
    forall p | |p| == 4 && Indices(p) ensures Walk(m, o, p) == Walk(m0, o, p) { SameForOthers(m0, m, at, c, o, p); }
    forall k | 0 <= k < 511 ensures SlotPlain(m, d, o, k, 4) {
      assert SlotPlain(m0, d, o, k, 4);
      forall q | |q| == 3 && Indices(q) ensures Plain(m, d, o, [k] + q) {
        assert Plain(m0, d, o, [k] + q);
      }
    }
  }

  // What original and duplicate translate below slot 511: what the original did
  // in the slots that it had present, and the devices in the others.
  ghost predicate Duplicated(m: Memory, d: Data, w: Memory, o: nat, c: nat, devices: seq<nat>) {
    o in m && |m[o]| == ENTRIES && forall v: nat :: Path(v)[0] != 511 ==> PageDuplicated(m, d, w, o, c, devices, v)
  }

  ghost predicate PageDuplicated(m: Memory, d: Data, w: Memory, o: nat, c: nat, devices: seq<nat>, v: nat)
    requires o in m && |m[o]| == ENTRIES
  {
    if Present in m[o][Path(v)[0]].flags then
      Copied(d, Walk(m, o, Path(v)), Walk(w, o, Path(v)), Walk(w, c, Path(v)), Path(v)[3])
    else
      Walk(w, o, Path(v)) == Fault && DeviceAt(w, c, devices, |devices|, v)
  }

  // The copy ends in the leaf that the original ends in, which is the one from
  // before made copy-on-write and not writable.
  predicate SameLeaf(a: Translation, b: Translation, c: Translation) {
    match a
    case Fault => b == Fault && c == Fault
    case Map(e, above, rest) =>
      && b == Map(CowLeaf(e, rest), above, rest)
      && c.Map? && c.entry == b.entry && c.rest == rest && {Present, ReadWrite, User} <= c.above
  }

  // The copy c translates every page of each slot that the original o had
  // present below 511 as o does.
  ghost predicate IsCopy(m: Memory, w: Memory, o: nat, c: nat) {
    o in m && |m[o]| == ENTRIES &&
    forall v: nat :: Path(v)[0] != 511 && Present in m[o][Path(v)[0]].flags ==>
      SameLeaf(Walk(m, o, Path(v)), Walk(w, o, Path(v)), Walk(w, c, Path(v)))
  }

  lemma {:induction false} CopyMeans(m0: Memory, m: Memory, d: Data, w: Memory, e: Data, at: map<nat, Place>, o: nat,
                                     c: nat, devices: seq<nat>)
    requires o in m0 && o in m && |m0[o]| == |m[o]| == ENTRIES && m0[o] == m[o]
    requires forall p :: |p| == 4 && Indices(p) ==> Walk(m, o, p) == Walk(m0, o, p)
    requires Halfway(m, d, w, e, at, o, c, 511, 4) && OnlyDevices(m, c, devices, |devices|)
    ensures Duplicated(m0, d, w, o, c, devices) && Swept(d, e, LargeBelow(m0, d.Keys, o, 511, 4))
  {
    forall v: nat | Path(v)[0] != 511 ensures PageDuplicated(m0, d, w, o, c, devices, v) {
      var p := Path(v);
      assert p == [p[0]] + p[1..] && Last(p) == p[3] && DeviceAt(m, c, devices, |devices|, v);
      if Present in m[o][p[0]].flags {
        assert SlotCopied(m, d, w, o, c, p[0], 4);
      } else {
        assert SlotKept(m, w, o, p[0], 4) && SlotKept(m, w, c, p[0], 4);
      }
    }
    SameLarge(m0, m, d.Keys, o, 511);
  }

  lemma {:induction false} SameLarge(m: Memory, w: Memory, fs: set<nat>, o: nat, i: nat)
    requires i <= ENTRIES && forall p :: |p| == 4 && Indices(p) ==> Walk(w, o, p) == Walk(m, o, p)
    ensures LargeBelow(w, fs, o, i, 4) == LargeBelow(m, fs, o, i, 4)
  {
    if i > 0 {
      var k := i - 1;
      SameLarge(m, w, fs, o, k);
      forall q | |q| == 3 && Indices(q) ensures Walk(w, o, [k] + q) == Walk(m, o, [k] + q) { assert Indices([k] + q); }
      KeptLarge(m, w, fs, o, k, 4);
    }
  }

  // The duplicate is a copy exactly when no 2 MB page is reached below slot 511.
  lemma {:induction false} CopyExactly(m: Memory, d: Data, w: Memory, o: nat, c: nat, devices: seq<nat>)
    requires Duplicated(m, d, w, o, c, devices)
    ensures IsCopy(m, w, o, c) <==> LowerSmall(m, o)
  {
    if IsCopy(m, w, o, c) {
      forall v: nat | Path(v)[0] != 511 ensures Small(m, o, Path(v)) {
        if Walk(m, o, Path(v)).Map? {
          assert PageDuplicated(m, d, w, o, c, devices, v);
          assert SameLeaf(Walk(m, o, Path(v)), Walk(w, o, Path(v)), Walk(w, c, Path(v)));
        }
      }
    }
    if LowerSmall(m, o) {
      forall v: nat | Path(v)[0] != 511 && Present in m[o][Path(v)[0]].flags
        ensures SameLeaf(Walk(m, o, Path(v)), Walk(w, o, Path(v)), Walk(w, c, Path(v)))
      {
        assert PageDuplicated(m, d, w, o, c, devices, v);
        assert Small(m, o, Path(v));
      }
    }
  }

  // Neither gets a large page by it.
  lemma {:induction false} CopySmall(m: Memory, d: Data, w: Memory, o: nat, c: nat, devices: seq<nat>)
    requires Duplicated(m, d, w, o, c, devices)
    ensures LowerSmall(w, c) && (LowerSmall(m, o) ==> LowerSmall(w, o))
  {
    forall v: nat | Path(v)[0] != 511
      ensures Small(w, c, Path(v)) && (LowerSmall(m, o) ==> Small(w, o, Path(v)))
    {
      assert PageDuplicated(m, d, w, o, c, devices, v);
      if LowerSmall(m, o) { assert Small(m, o, Path(v)); }
    }
  }

  // The 4 KB frame of the page with last index j.
  function FrameOf(t: Translation, j: nat): nat
    requires t.Map?
  {
    if t.rest == 0 then t.entry.frame else t.entry.frame + j
  }

  // The copy of a 2 MB page never is one. Its part with last index j is at the
  // right frame exactly when word j of the page happened to be an entry for it.
  lemma {:induction false} LargePageIsLost(m: Memory, d: Data, w: Memory, o: nat, c: nat, devices: seq<nat>, v: nat)
    requires Duplicated(m, d, w, o, c, devices) && Path(v)[0] != 511
    requires var x := Walk(m, o, Path(v)); x.Map? && x.rest == 1
    ensures var x, y, j := Walk(m, o, Path(v)), Walk(w, c, Path(v)), Path(v)[3];
      && x.entry.frame in d && j < |d[x.entry.frame]|
      && (y.Map? ==> y.rest == 0)
      && (y.Map? && FrameOf(y, j) == FrameOf(x, j) <==>
            var word := d[x.entry.frame][j]; Present in word.flags && word.frame == x.entry.frame + j)
  {
    assert PageDuplicated(m, d, w, o, c, devices, v);
  }

  // A new directory changes no walk from the others.
  lemma {:induction false} SameForOthers(m: Memory, w: Memory, at: map<nat, Place>, c: nat, s: nat, p: seq<nat>)
    requires Tree(m, at) && OthersSame(m, w, at, c) && c !in m
    requires s in m && Depth(at[s]) == 0 && |p| == 4 && Indices(p)
    ensures Walk(w, s, p) == Walk(m, s, p)
  {
    var xs := set x | x in m && Owned(at[x], c);
    Avoid(m, w, at, xs, s, p);
  }

  // Nor does the copying, except from o below slot 511.
  lemma {:induction false} OutsideSame(m: Memory, w: Memory, at: map<nat, Place>, o: nat, c: nat, s: nat, p: seq<nat>)
    requires Tree(m, at) && o in m && c in m && at[o] == Lower(o, []) && at[c] == Lower(c, []) && o != c
    requires forall x :: x in m && x != c && !Below(at[o], at[x]) ==> x in w && w[x] == m[x]
    requires o in w && |w[o]| == ENTRIES && w[o][511] == m[o][511]
    requires s in m && s != c && Depth(at[s]) == 0 && |p| == 4 && Indices(p) && (s != o || p[0] == 511)
    ensures Walk(w, s, p) == Walk(m, s, p)
  {
    var xs := set x | x in m && (x == c || Below(at[o], at[x]));
    if s != o {
      Avoid(m, w, at, xs, s, p);
    } else if LeadsOn(at[o], m[o][511]) {
      assert Hangs(m, at, o, 511);
      Avoid(m, w, at, xs, m[o][511].frame, p[1..]);
    }
  }

  // ----- No table in common

  // The tables that a walk visits.
  function Visited(m: Memory, t: nat, p: seq<nat>): set<nat>
    decreases |p|
  {
    if p == [] || t !in m || p[0] >= |m[t]| then {} else
      var e := m[t][p[0]];
      if Present in e.flags && |p| > 1 && (|p| == 4 || PageSize !in e.flags) then {t} + Visited(m, e.frame, p[1..]) else {t}
  }

  lemma {:induction false} VisitedOwner(m: Memory, at: map<nat, Place>, t: nat, p: seq<nat>)
    requires Tree(m, at) && t in m && Indices(p) && Depth(at[t]) + |p| == 4
    requires at[t].Lower? && (at[t].path == [] ==> p[0] != 511)
    ensures forall x :: x in Visited(m, t, p) ==> x in at && Owned(at[x], at[t].pml4)
    decreases |p|
  {
    if |p| > 1 && LeadsOn(at[t], m[t][p[0]]) {
      assert Hangs(m, at, t, p[0]);
      VisitedOwner(m, at, m[t][p[0]].frame, p[1..]);
    }
  }

  // Below slot 511 two directories have no table in common.
  lemma {:induction false} NoSharedTables(m: Memory, at: map<nat, Place>, o: nat, c: nat, v: nat, w: nat)
    requires Tree(m, at) && o in m && c in m && o != c && at[o] == Lower(o, []) && at[c] == Lower(c, [])
    requires Path(v)[0] != 511 && Path(w)[0] != 511
    ensures Visited(m, o, Path(v)) !! Visited(m, c, Path(w))
  {
    VisitedOwner(m, at, o, Path(v));
    VisitedOwner(m, at, c, Path(w));
  }
}
