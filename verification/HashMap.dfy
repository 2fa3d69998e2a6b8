// The open-addressing hash map of src/lib/hashmap.c. It stores only the 32-bit
// hash of a key; here a key is its hash.
module HashMap {
  import opened Arithmetic
  import opened Common

  const BUCKET_MAX_LEN: nat := 12
  const REFUSED: nat := 0xffff_ffff   // UINT32_MAX, for which nothing is stored

  // A slot without item, one whose item was removed, and an occupied one.
  datatype Slot<+V> = Empty | Hole(key: nat, data: V) | Full(key: nat, data: V)
  datatype Inserted<+V> = Ok(slots: seq<Slot<V>>) | EINVAL | ENOSPC

  // The slot of the i-th probe.
  function Probe(h: nat, cap: nat, i: nat): (x: nat)
    requires cap > 0
    ensures x < cap
  {
    (h + i) % cap
  }

  // First probe from i on that meets no occupied slot; 12 when there is none.
  function FreeProbe<V>(s: seq<Slot<V>>, h: nat, i: nat): (k: nat)
    requires s != [] && i <= BUCKET_MAX_LEN
    ensures i <= k <= BUCKET_MAX_LEN
    ensures k < BUCKET_MAX_LEN ==> !s[Probe(h, |s|, k)].Full?
    ensures forall j :: i <= j < k ==> s[Probe(h, |s|, j)].Full?
    decreases BUCKET_MAX_LEN - i
  {
    if i == BUCKET_MAX_LEN || !s[Probe(h, |s|, i)].Full? then i else FreeProbe(s, h, i + 1)
  }

  function Insert<V>(s: seq<Slot<V>>, h: nat, v: V): Inserted<V>
    requires s != []
  {
    if h == REFUSED then EINVAL
    else if FreeProbe(s, h, 0) == BUCKET_MAX_LEN then ENOSPC
    else Ok(s[Probe(h, |s|, FreeProbe(s, h, 0)) := Full(h, v)])
  }

  // One of the probed slots is not occupied.
  predicate HasRoom<V>(s: seq<Slot<V>>, h: nat)
    requires s != []
  {
    exists i :: 0 <= i < BUCKET_MAX_LEN && !s[Probe(h, |s|, i)].Full?
  }

  // An insert is refused for the hash UINT32_MAX alone, and otherwise fails only
  // for want of room; it fills the first slot probed that is not occupied.
  lemma {:induction false} InsertExactly<V>(s: seq<Slot<V>>, h: nat, v: V)
    requires s != []
    ensures Insert(s, h, v) == EINVAL <==> h == REFUSED
    ensures Insert(s, h, v).Ok? <==> h != REFUSED && HasRoom(s, h)
    ensures Insert(s, h, v).Ok? ==> exists k :: 0 <= k < BUCKET_MAX_LEN && FillsAt(s, Insert(s, h, v).slots, h, v, k)
  {
    var k := FreeProbe(s, h, 0);
    if Insert(s, h, v).Ok? {
      assert FillsAt(s, Insert(s, h, v).slots, h, v, k);
      assert !s[Probe(h, |s|, k)].Full?;
    }
  }

  // From s to t probe k met the first slot that was not occupied, and filled it.
  predicate FillsAt<V(==)>(s: seq<Slot<V>>, t: seq<Slot<V>>, h: nat, v: V, k: nat)
    requires s != []
  {
    && (forall j :: 0 <= j < k ==> s[Probe(h, |s|, j)].Full?) && !s[Probe(h, |s|, k)].Full?
    && |t| == |s| && t[Probe(h, |s|, k)] == Full(h, v)
    && forall x :: 0 <= x < |s| && x != Probe(h, |s|, k) ==> t[x] == s[x]
  }

  // The data of the first occupied slot with hash h from probe i on, unless the
  // search meets a slot that is not occupied first.
  function Find<V>(s: seq<Slot<V>>, h: nat, i: nat): Option<V>
    requires s != [] && i <= BUCKET_MAX_LEN
    decreases BUCKET_MAX_LEN - i
  {
    if i == BUCKET_MAX_LEN then None else
      var c := s[Probe(h, |s|, i)];
      if !c.Full? then None
      else if c.key == h then Some(c.data)
      else Find(s, h, i + 1)
  }

  function Get<V>(s: seq<Slot<V>>, h: nat): Option<V>
    requires s != []
  {
    if h == REFUSED then None else Find(s, h, 0)
  }

  // ----- Insert-only histories

  // Every item sits where a search for its hash gets to.
  ghost predicate Reachable<V>(s: seq<Slot<V>>)
    requires s != []
  {
    forall x :: 0 <= x < |s| && s[x].Full? ==> exists i: nat :: LeadsTo(s, s[x].key, i, x)
  }

  predicate LeadsTo<V>(s: seq<Slot<V>>, h: nat, i: nat, x: nat)
    requires s != []
  {
    i < BUCKET_MAX_LEN && Probe(h, |s|, i) == x && forall j :: 0 <= j < i ==> s[Probe(h, |s|, j)].Full?
  }

  predicate Absent<V>(s: seq<Slot<V>>, h: nat) {
    forall x :: 0 <= x < |s| && s[x].Full? ==> s[x].key != h
  }

  lemma {:induction false} FindAbsent<V>(s: seq<Slot<V>>, h: nat, i: nat)
    requires s != [] && i <= BUCKET_MAX_LEN && Absent(s, h)
    ensures Find(s, h, i) == None
    decreases BUCKET_MAX_LEN - i
  {
    if i < BUCKET_MAX_LEN { FindAbsent(s, h, i + 1); }
  }

  // A search that fails has missed nothing.
  lemma {:induction false} FindNone<V>(s: seq<Slot<V>>, h: nat)
    requires s != [] && Reachable(s) && Find(s, h, 0) == None
    ensures Absent(s, h)
  {
    forall x | 0 <= x < |s| && s[x].Full? ensures s[x].key != h {
      if s[x].key == h {
        var i: nat :| LeadsTo(s, h, i, x);
        FindsSome(s, h, 0, i);
      }
    }
  }

  lemma {:induction false} FindsSome<V>(s: seq<Slot<V>>, h: nat, k: nat, i: nat)
    requires s != [] && k <= i < BUCKET_MAX_LEN
    requires forall j :: 0 <= j <= i ==> s[Probe(h, |s|, j)].Full?
    requires s[Probe(h, |s|, i)].key == h
    ensures Find(s, h, k).Some?
    decreases i - k
  {
    if k < i { FindsSome(s, h, k + 1, i); }
  }

  // A successful search is not disturbed when a free slot is filled.
  lemma {:induction false} FindKept<V>(s: seq<Slot<V>>, h: nat, i: nat, x: nat, c: Slot<V>)
    requires s != [] && i <= BUCKET_MAX_LEN && x < |s| && !s[x].Full? && Find(s, h, i).Some?
    ensures Find(s[x := c], h, i) == Find(s, h, i)
    decreases BUCKET_MAX_LEN - i
  {
    if s[Probe(h, |s|, i)].key != h { FindKept(s, h, i + 1, x, c); }
  }

  // A search for the inserted hash finds it when it was absent.
  lemma {:induction false} FindNew<V>(s: seq<Slot<V>>, h: nat, v: V, i: nat)
    requires s != [] && Absent(s, h)
    requires var k := FreeProbe(s, h, 0); i <= k < BUCKET_MAX_LEN
    ensures Find(s[Probe(h, |s|, FreeProbe(s, h, 0)) := Full(h, v)], h, i) == Some(v)
    decreases BUCKET_MAX_LEN - i
  {
    var k := FreeProbe(s, h, 0);
    if i < k { FindNew(s, h, v, i + 1); }
  }

  lemma {:induction false} InsertReachable<V>(s: seq<Slot<V>>, h: nat, v: V)
    requires s != [] && Reachable(s) && Insert(s, h, v).Ok?
    ensures Reachable(Insert(s, h, v).slots)
  {
    var k := FreeProbe(s, h, 0);
    var x := Probe(h, |s|, k);
    var t := s[x := Full(h, v)];
    forall y | 0 <= y < |t| && t[y].Full? ensures exists i: nat :: LeadsTo(t, t[y].key, i, y) {
      if y == x {
        assert LeadsTo(t, h, k, x);
      } else {
        var i: nat :| LeadsTo(s, s[y].key, i, y);
        assert LeadsTo(t, t[y].key, i, y);
      }
    }
  }

  // What one successful insert does to all searches.
  lemma {:induction false} InsertGet<V>(s: seq<Slot<V>>, h: nat, v: V, g: nat)
    requires s != [] && Reachable(s) && Insert(s, h, v).Ok?
    ensures Get(Insert(s, h, v).slots, g) == if g == h && Get(s, g) == None then Some(v) else Get(s, g)
  {
    var x := Probe(h, |s|, FreeProbe(s, h, 0));
    var t := s[x := Full(h, v)];
    if g != REFUSED {
      if Get(s, g).Some? {
        FindKept(s, g, 0, x, Full(h, v));
      } else {
        FindNone(s, g);
        if g == h { FindNew(s, h, v, 0); } else { FindAbsent(t, g, 0); }
      }
    }
  }

  // The slots after a sequence of inserts, failed ones included.
  function After<V>(s: seq<Slot<V>>, ops: seq<(nat, V)>): (t: seq<Slot<V>>)
    requires s != []
    ensures |t| == |s|
  {
    if ops == [] then s else
      var t := After(s, ops[..|ops| - 1]);
      var (h, v) := ops[|ops| - 1];
      match Insert(t, h, v)
      case Ok(u) => u
      case _ => t
  }

  // The element of the earliest insert with hash h that found room.
  function Earliest<V>(s: seq<Slot<V>>, ops: seq<(nat, V)>, h: nat): Option<V>
    requires s != []
  {
    if ops == [] then None else
      var e := Earliest(s, ops[..|ops| - 1], h);
      var (g, v) := ops[|ops| - 1];
      if e.Some? then e
      else if g == h && g != REFUSED && HasRoom(After(s, ops[..|ops| - 1]), g) then Some(v)
      else None
  }

  function Fresh<V>(cap: nat): seq<Slot<V>> {
    seq(cap, _ => Empty)
  }

  // Main result: over any sequence of inserts into a fresh map, hm_get returns
  // the element of the earliest insert with the same hash that found room.
  lemma {:induction false} GetIsEarliest<V>(cap: nat, ops: seq<(nat, V)>, h: nat)
    requires cap > 0
    ensures Reachable(After(Fresh(cap), ops))
    ensures Get(After(Fresh(cap), ops), h) == Earliest(Fresh(cap), ops, h)
  {
    if ops == [] {
      FindAbsent(Fresh<V>(cap), h, 0);
    } else {
      var k := |ops| - 1;
      GetIsEarliest(cap, ops[..k], h);
      var s := After(Fresh(cap), ops[..k]);
      var (g, v) := ops[k];
      InsertExactly(s, g, v);
      if Insert(s, g, v).Ok? {
        InsertReachable(s, g, v);
        InsertGet(s, g, v, h);
      }
    }
  }

  // An insert is refused for space exactly when all probed slots are occupied.
  lemma {:induction false} RefusedWhenFull<V>(s: seq<Slot<V>>, h: nat, v: V)
    requires s != [] && h != REFUSED
    ensures Insert(s, h, v) == ENOSPC <==> forall i :: 0 <= i < BUCKET_MAX_LEN ==> s[Probe(h, |s|, i)].Full?
  {
  }

  // In a map of at most 12 slots the probes wrap around and reach every slot:
  // an insert is refused only when the whole map is full.
  lemma {:induction false} SmallMapProbesAll<V>(s: seq<Slot<V>>, h: nat, v: V)
    requires 0 < |s| <= BUCKET_MAX_LEN && h != REFUSED
    ensures Insert(s, h, v) == ENOSPC <==> forall x :: 0 <= x < |s| ==> s[x].Full?
  {
    RefusedWhenFull(s, h, v);
    if Insert(s, h, v) == ENOSPC {
      forall x | 0 <= x < |s| ensures s[x].Full? {
        var i := (x + |s| - h % |s|) % |s|;
        ProbeReaches(h, |s|, x, i);
      }
    }
  }

  lemma {:induction false} ProbeReaches(h: nat, cap: nat, x: nat, i: nat)
    requires x < cap && i == (x + cap - h % cap) % cap
    ensures Probe(h, cap, i) == x && i < cap
  {
    var q, r := h / cap, h % cap;
    assert h == cap * q + r;
    if x >= r {
      Quotient(x - r + cap, cap, 1, x - r);
      assert h + i == cap * q + x;
      Quotient(h + i, cap, q, x);
    } else {
      Quotient(x + cap - r, cap, 0, x + cap - r);
      assert h + i == cap * (q + 1) + x;
      Quotient(h + i, cap, q + 1, x);
    }
  }

  // ----- hm_remove

  // Probe at which a search for h stops, 12 when it runs out.
  function StopProbe<V>(s: seq<Slot<V>>, h: nat, i: nat): (k: nat)
    requires s != [] && i <= BUCKET_MAX_LEN
    ensures i <= k <= BUCKET_MAX_LEN
    decreases BUCKET_MAX_LEN - i
  {
    if i == BUCKET_MAX_LEN || !s[Probe(h, |s|, i)].Full? || s[Probe(h, |s|, i)].key == h then i
    else StopProbe(s, h, i + 1)
  }

  // First probe from i on at which hm_remove stops: at an item with hash h,
  // occupied or not, or at a slot without item.
  function HolderProbe<V>(s: seq<Slot<V>>, h: nat, i: nat): (k: nat)
    requires s != [] && i <= BUCKET_MAX_LEN
    ensures i <= k <= BUCKET_MAX_LEN
    decreases BUCKET_MAX_LEN - i
  {
    if i == BUCKET_MAX_LEN || s[Probe(h, |s|, i)].Empty? || s[Probe(h, |s|, i)].key == h then i
    else HolderProbe(s, h, i + 1)
  }

  // Slot x passes from occupied to removed.
  function Removed<V>(s: seq<Slot<V>>, x: nat): seq<Slot<V>>
    requires x < |s| && !s[x].Empty?
  {
    s[x := Hole(s[x].key, s[x].data)]
  }

  // Success, -EINVAL, -ENOENT, and the item of a slot without one.
  datatype Removal<+V> = Cleared(slots: seq<Slot<V>>) | BadKey | NotThere | NullItem

  // hm_remove
  function Remove<V>(s: seq<Slot<V>>, h: nat): Removal<V>
    requires s != []
  {
    var k := HolderProbe(s, h, 0);
    if h == REFUSED then BadKey
    else if k == BUCKET_MAX_LEN then NotThere
    else if s[Probe(h, |s|, k)].Empty? then NullItem
    else Cleared(Removed(s, Probe(h, |s|, k)))
  }

  predicate NoHoles<V>(s: seq<Slot<V>>) {
    forall x :: 0 <= x < |s| ==> !s[x].Hole?
  }

  // Inserts leave none.
  lemma {:induction false} AfterNoHoles<V>(cap: nat, ops: seq<(nat, V)>)
    requires cap > 0
    ensures NoHoles(After(Fresh(cap), ops))
  {
    if ops != [] { AfterNoHoles(cap, ops[..|ops| - 1]); }
  }

  // The first i probes for h meet items with other hashes.
  predicate Passes<V>(s: seq<Slot<V>>, h: nat, i: nat)
    requires s != []
  {
    forall j :: 0 <= j < i ==> !s[Probe(h, |s|, j)].Empty? && s[Probe(h, |s|, j)].key != h
  }

  // Probe i is the first that meets an item with hash h, occupied or not.
  predicate Meets<V>(s: seq<Slot<V>>, h: nat, i: nat)
    requires s != []
  {
    Passes(s, h, i) && !s[Probe(h, |s|, i)].Empty? && s[Probe(h, |s|, i)].key == h
  }

  // Or a slot without item comes first.
  predicate MeetsNone<V>(s: seq<Slot<V>>, h: nat, i: nat)
    requires s != []
  {
    Passes(s, h, i) && s[Probe(h, |s|, i)].Empty?
  }

  // hm_remove clears the first item with its hash that is probed, occupied or
  // not; it dereferences a null item exactly when a slot without item comes
  // first. It clears what hm_get finds, and in a map without removed items
  // nothing else.
  lemma {:induction false} RemoveExactly<V>(s: seq<Slot<V>>, h: nat)
    requires s != [] && h != REFUSED
    ensures Remove(s, h).Cleared? <==> exists i :: 0 <= i < BUCKET_MAX_LEN && Meets(s, h, i)
    ensures Remove(s, h).NullItem? <==> exists i :: 0 <= i < BUCKET_MAX_LEN && MeetsNone(s, h, i)
    ensures Get(s, h).Some? ==> Remove(s, h).Cleared? && s[Probe(h, |s|, HolderProbe(s, h, 0))] == Full(h, Get(s, h).value)
    ensures NoHoles(s) && Remove(s, h).Cleared? ==> Get(s, h).Some?
  {
    var k := HolderProbe(s, h, 0);
    HolderPasses(s, h, 0);
    HolderFinds(s, h, 0);
    assert Passes(s, h, k);
    if k < BUCKET_MAX_LEN { assert Meets(s, h, k) || MeetsNone(s, h, k); }
    forall i | 0 <= i < BUCKET_MAX_LEN && (Meets(s, h, i) || MeetsNone(s, h, i)) ensures i == k {
      HolderIs(s, h, 0, i);
    }
  }

  // After inserts alone hm_remove clears an item exactly when one of them with
  // the same hash was successful.
  lemma {:induction false} RemoveAfterInserts<V>(cap: nat, ops: seq<(nat, V)>, h: nat)
    requires cap > 0 && h != REFUSED
    ensures Remove(After(Fresh(cap), ops), h).Cleared? <==> Earliest(Fresh(cap), ops, h).Some?
  {
    AfterNoHoles(cap, ops);
    GetIsEarliest(cap, ops, h);
    RemoveExactly(After(Fresh(cap), ops), h);
  }

  lemma {:induction false} HolderIs<V>(s: seq<Slot<V>>, h: nat, a: nat, i: nat)
    requires s != [] && a <= i < BUCKET_MAX_LEN && (Meets(s, h, i) || MeetsNone(s, h, i))
    ensures HolderProbe(s, h, a) == i
    decreases i - a
  {
    if a < i { HolderIs(s, h, a + 1, i); }
  }

  lemma {:induction false} HolderPasses<V>(s: seq<Slot<V>>, h: nat, i: nat)
    requires s != [] && i <= BUCKET_MAX_LEN
    ensures var k := HolderProbe(s, h, i);
      && (forall j :: i <= j < k ==> !s[Probe(h, |s|, j)].Empty? && s[Probe(h, |s|, j)].key != h)
      && (k < BUCKET_MAX_LEN ==> s[Probe(h, |s|, k)].Empty? || s[Probe(h, |s|, k)].key == h)
    decreases BUCKET_MAX_LEN - i
  {
    if HolderProbe(s, h, i) != i { HolderPasses(s, h, i + 1); }
  }

  lemma {:induction false} HolderFinds<V>(s: seq<Slot<V>>, h: nat, i: nat)
    requires s != [] && i <= BUCKET_MAX_LEN
    ensures var k := HolderProbe(s, h, i);
      && (Find(s, h, i).Some? ==> k < BUCKET_MAX_LEN && s[Probe(h, |s|, k)] == Full(h, Find(s, h, i).value))
      && (NoHoles(s) && k < BUCKET_MAX_LEN && !s[Probe(h, |s|, k)].Empty? ==> Find(s, h, i).Some?)
    decreases BUCKET_MAX_LEN - i
  {
    if HolderProbe(s, h, i) != i { HolderFinds(s, h, i + 1); }
  }

  // A search for g probes the slot at which hm_remove of h stops, before it stops
  // itself.
  predicate OnTheWay<V>(s: seq<Slot<V>>, g: nat, h: nat)
    requires s != []
  {
    exists j :: 0 <= j < StopProbe(s, g, 0) && Probe(g, |s|, j) == Probe(h, |s|, HolderProbe(s, h, 0))
  }

  // What hm_remove of h does to every lookup, with or without removed items: h
  // is not found any more, and another hash is found as before, or is lost
  // exactly when the cleared slot was on the way to its item.
  lemma {:induction false} RemoveThenGet<V>(s: seq<Slot<V>>, h: nat, g: nat)
    requires s != [] && Remove(s, h).Cleared? && g != REFUSED
    ensures Get(Remove(s, h).slots, h) == None
    ensures g != h ==> Get(Remove(s, h).slots, g) == if OnTheWay(s, g, h) then None else Get(s, g)
  {
    var x := Probe(h, |s|, HolderProbe(s, h, 0));
    HolderAt(s, h, 0);
    RemovedStops(s, h, x, 0);
    if g != h {
      if s[x].Full? {
        if Find(s, g, 0).Some? { RemoveHides(s, x, g, 0); } else { StillNone(s, x, g, 0); }
      } else {
        AllFull(s, g, 0);
        assert Removed(s, x) == s;
      }
    }
  }

  lemma {:induction false} AllFull<V>(s: seq<Slot<V>>, g: nat, i: nat)
    requires s != [] && i <= BUCKET_MAX_LEN
    ensures forall j :: i <= j < StopProbe(s, g, i) ==> s[Probe(g, |s|, j)].Full?
    decreases BUCKET_MAX_LEN - i
  {
    if StopProbe(s, g, i) != i { AllFull(s, g, i + 1); }
  }

  lemma {:induction false} HolderAt<V>(s: seq<Slot<V>>, h: nat, i: nat)
    requires s != [] && i <= BUCKET_MAX_LEN
    ensures var k := HolderProbe(s, h, i);
      k < BUCKET_MAX_LEN && !s[Probe(h, |s|, k)].Empty? ==> s[Probe(h, |s|, k)].key == h
    decreases BUCKET_MAX_LEN - i
  {
    if i < BUCKET_MAX_LEN { HolderAt(s, h, i + 1); }
  }

  // A search for the removed hash stops at its slot, at the latest.
  lemma {:induction false} RemovedStops<V>(s: seq<Slot<V>>, h: nat, x: nat, i: nat)
    requires s != [] && i <= BUCKET_MAX_LEN
    requires HolderProbe(s, h, i) < BUCKET_MAX_LEN && x == Probe(h, |s|, HolderProbe(s, h, i)) && !s[x].Empty?
    ensures Find(Removed(s, x), h, i) == None
    decreases BUCKET_MAX_LEN - i
  {
    if HolderProbe(s, h, i) != i { RemovedStops(s, h, x, i + 1); }
  }

  lemma {:induction false} StillNone<V>(s: seq<Slot<V>>, x: nat, g: nat, i: nat)
    requires s != [] && x < |s| && s[x].Full? && i <= BUCKET_MAX_LEN && Find(s, g, i) == None
    ensures Find(Removed(s, x), g, i) == None
    decreases BUCKET_MAX_LEN - i
  {
    if i < BUCKET_MAX_LEN && s[Probe(g, |s|, i)].Full? { StillNone(s, x, g, i + 1); }
  }

  // A removed item makes another one unfindable exactly when its slot was on
  // the way to it: a search stops at the hole.
  lemma {:induction false} RemoveHides<V>(s: seq<Slot<V>>, x: nat, g: nat, i: nat)
    requires s != [] && x < |s| && s[x].Full? && g != s[x].key && i <= BUCKET_MAX_LEN
    requires Find(s, g, i).Some?
    ensures Find(Removed(s, x), g, i) ==
      if exists j :: i <= j < StopProbe(s, g, i) && Probe(g, |s|, j) == x then None else Find(s, g, i)
    decreases BUCKET_MAX_LEN - i
  {
    if s[Probe(g, |s|, i)].key != g {
      var k := StopProbe(s, g, i);
      RemoveHides(s, x, g, i + 1);
      if Probe(g, |s|, i) != x && exists j :: i <= j < k && Probe(g, |s|, j) == x {
        var j :| i <= j < k && Probe(g, |s|, j) == x;
        assert i + 1 <= j;
      }
    }
  }

  // ----- The map itself

  class Item<V> {
    var data: V
    var key: nat
    var occupied: bool

    constructor (key: nat, data: V)
      ensures this.key == key && this.data == data && occupied
    {
      this.key, this.data, this.occupied := key, data, true;
    }
  }

  class Map<V> {
    const elem: array<Item?<V>>
    var len: nat

    ghost predicate Valid()
      reads this, elem
    {
      elem.Length > 0 && forall x, y :: 0 <= x < y < elem.Length && elem[x] != null ==> elem[x] != elem[y]
    }

    ghost function SlotAt(x: nat): Slot<V>
      requires x < elem.Length
      reads this, elem, elem[x]
    {
      if elem[x] == null then Empty
      else if elem[x].occupied then Full(elem[x].key, elem[x].data)
      else Hole(elem[x].key, elem[x].data)
    }

    ghost function Slots(): (s: seq<Slot<V>>)
      reads this, elem, elem[..]
      ensures |s| == elem.Length && forall x :: 0 <= x < |s| ==> s[x] == SlotAt(x)
    {
      seq(elem.Length, x requires 0 <= x < elem.Length reads this, elem, elem[..] => SlotAt(x))
    }

    // hm_alloc_hashmap
    constructor (size: nat)
      requires size > 0
      ensures Valid() && fresh(elem) && Slots() == Fresh(size) && len == 0
    {
      elem := new Item?<V>[size](_ => null);
      len := 0;
    }

    // The search of hm_find_free_bucket: the slot to fill, or -ENOSPC.
    method FindFreeBucket(key: nat) returns (index: int)
      requires Valid()
      ensures var k := FreeProbe(Slots(), key, 0);
        index == if k == BUCKET_MAX_LEN then -Common.ENOSPC else Probe(key, elem.Length, k)
    {
      var x := key % elem.Length;
      var i := 0;
      while i < BUCKET_MAX_LEN
        invariant 0 <= i <= BUCKET_MAX_LEN && x == Probe(key, elem.Length, i)
        invariant FreeProbe(Slots(), key, 0) == FreeProbe(Slots(), key, i)
      {
        assert Slots()[x] == SlotAt(x);
        if elem[x] == null || !elem[x].occupied { return x; }
        NextProbe(key, elem.Length, i);
        x := (x + 1) % elem.Length;
        i := i + 1;
      }
      index := -Common.ENOSPC;
    }

    // hm_insert: 0, -EINVAL or -ENOSPC.
    method HmInsert(key: nat, data: V) returns (r: int)
      requires Valid() && len < elem.Length
      modifies this, elem, elem[..]
      ensures Valid()
      ensures match Insert(old(Slots()), key, data)
        case Ok(s) => r == 0 && Slots() == s && len == old(len) + 1
        case EINVAL => r == -Common.EINVAL && Slots() == old(Slots()) && len == old(len)
        case ENOSPC => r == -Common.ENOSPC && Slots() == old(Slots()) && len == old(len)
    {
      if key == REFUSED { return -Common.EINVAL; }
      var index := FindFreeBucket(key);
      if index < 0 { return -Common.ENOSPC; }
      Fill(index, key, data);
      len := len + 1;
      r := 0;
    }

    // Puts an item into a slot, with a new node when the slot has none.
    method Fill(index: nat, key: nat, data: V)
      requires Valid() && index < elem.Length
      modifies elem, elem[index]
      ensures Valid() && Slots() == old(Slots())[index := Full(key, data)]
    {
      if elem[index] == null {
        elem[index] := new Item(key, data);
      } else {
        elem[index].data := data;
        elem[index].key := key;
        elem[index].occupied := true;
      }
      assert SlotAt(index) == Full(key, data);
      forall x | 0 <= x < elem.Length && x != index ensures SlotAt(x) == old(SlotAt(x)) {
        assert elem[x] == old(elem[x]) && (elem[x] != null ==> elem[x] != old(elem[index]));
      }
    }

    // hm_remove. Where the program dereferences the item of a slot without one,
    // the model reports that instead. The length stays.
    method HmRemove(key: nat) returns (r: int, fault: bool)
      requires Valid()
      modifies elem[..]
      ensures Valid() && (fault <==> Remove(old(Slots()), key) == NullItem)
      ensures match Remove(old(Slots()), key)
        case Cleared(s) => r == 0 && Slots() == s
        case BadKey => r == -Common.EINVAL && Slots() == old(Slots())
        case NotThere => r == -Common.ENOENT && Slots() == old(Slots())
        case NullItem => Slots() == old(Slots())
    {
      if key == REFUSED { return -Common.EINVAL, false; }
      ghost var s := Slots();
      var x := key % elem.Length;
      var i := 0;
      while i < BUCKET_MAX_LEN
        invariant 0 <= i <= BUCKET_MAX_LEN && x == Probe(key, elem.Length, i) && Slots() == s && Valid()
        invariant HolderProbe(s, key, 0) == HolderProbe(s, key, i)
      {
        assert s[x] == SlotAt(x);
        if elem[x] == null { return 0, true; }
        if elem[x].key == key {
          Clear(x);
          return 0, false;
        }
        NextProbe(key, elem.Length, i);
        x := (x + 1) % elem.Length;
        i := i + 1;
      }
      r, fault := -Common.ENOENT, false;
    }

    method Clear(x: nat)
      requires Valid() && x < elem.Length && elem[x] != null
      modifies elem[x]
      ensures Valid() && Slots() == Removed(old(Slots()), x)
    {
      assert Slots()[x] == SlotAt(x);
      elem[x].occupied := false;
      assert SlotAt(x) == Removed(old(Slots()), x)[x];
      forall y | 0 <= y < elem.Length && y != x ensures SlotAt(y) == old(SlotAt(y)) {
        assert elem[y] != null ==> elem[y] != elem[x];
      }
    }

    // hm_get
    method HmGet(key: nat) returns (r: Option<V>)
      requires Valid()
      ensures r == Get(Slots(), key)
    {
      if key == REFUSED { return None; }
      var x := key % elem.Length;
      var i := 0;
      while i < BUCKET_MAX_LEN
        invariant 0 <= i <= BUCKET_MAX_LEN && x == Probe(key, elem.Length, i)
        invariant Find(Slots(), key, 0) == Find(Slots(), key, i)
      {
        assert Slots()[x] == SlotAt(x);
        if elem[x] == null { return None; }
        if !elem[x].occupied { return None; }
        if elem[x].key == key { return Some(elem[x].data); }
        NextProbe(key, elem.Length, i);
        x := (x + 1) % elem.Length;
        i := i + 1;
      }
      r := None;
    }
  }

  lemma {:induction false} NextProbe(h: nat, cap: nat, i: nat)
    requires cap > 0
    ensures (Probe(h, cap, i) + 1) % cap == Probe(h, cap, i + 1)
  {
    var q, r := (h + i) / cap, (h + i) % cap;
    assert h + i == cap * q + r;
    if r + 1 == cap {
      assert h + i + 1 == cap * (q + 1) + 0;
      Quotient(h + i + 1, cap, q + 1, 0);
    } else {
      Quotient(h + i + 1, cap, q, r + 1);
      Quotient(r + 1, cap, 0, r + 1);
    }
  }
}
