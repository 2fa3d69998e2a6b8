// A hash map of src/lib/hashmap.c whose keys are 32-bit numbers: it stores only
// hashes, but never confuses two numbers.
module NumberMap {
  import opened Common
  import opened HashMap
  import opened HashFunctions

  predicate Numbers<V>(ops: seq<(nat, V)>) {
    forall i :: 0 <= i < |ops| ==> ops[i].0 < WORD
  }

  // The inserts as the map sees them.
  function Hashed<V>(ops: seq<(nat, V)>): (hs: seq<(nat, V)>)
    ensures |hs| == |ops| && forall i :: 0 <= i < |ops| ==> hs[i] == (HashNum(ops[i].0), ops[i].1)
  {
    seq(|ops|, i requires 0 <= i < |ops| => (HashNum(ops[i].0), ops[i].1))
  }

  // The element of the earliest insert of the number n that found room.
  function EarliestOf<V>(cap: nat, ops: seq<(nat, V)>, n: nat): Option<V>
    requires cap > 0
  {
    if ops == [] then None else
      var rest := ops[..|ops| - 1];
      var (k, v) := ops[|ops| - 1];
      var e := EarliestOf(cap, rest, n);
      if e.Some? then e
      else if k == n && HashNum(k) != REFUSED && HasRoom(After(Fresh(cap), Hashed(rest)), HashNum(k)) then Some(v)
      else None
  }

  lemma {:induction false} SameEarliest<V>(cap: nat, ops: seq<(nat, V)>, n: nat)
    requires cap > 0 && Numbers(ops) && n < WORD
    ensures Earliest(Fresh(cap), Hashed(ops), HashNum(n)) == EarliestOf(cap, ops, n)
  {
    if ops != [] {
      var rest, hs := ops[..|ops| - 1], Hashed(ops);
      SameEarliest(cap, rest, n);
      assert hs[..|hs| - 1] == Hashed(rest);
      HashNumBijective(ops[|ops| - 1].0, n);
    }
  }

  // Main result: a lookup by number finds the element that was first stored
  // under that number.
  lemma {:induction false} GetByNumber<V>(cap: nat, ops: seq<(nat, V)>, n: nat)
    requires cap > 0 && Numbers(ops) && n < WORD
    ensures Get(After(Fresh(cap), Hashed(ops)), HashNum(n)) == EarliestOf(cap, ops, n)
  {
    GetIsEarliest(cap, Hashed(ops), HashNum(n));
    SameEarliest(cap, ops, n);
  }
}
