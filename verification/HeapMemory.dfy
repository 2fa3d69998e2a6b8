// Chunk headers as the 25 packed bytes of mm_chunk_t in memory, and when the
// bytes of memory represent the chunk lists of ChunkLists.
module HeapMemory {
  import opened Bytes
  import opened ChunkLists

  datatype Header = Header(size: nat, free: bool, next: nat, prev: nat)

  function HeaderIn(m: seq<byte>, p: nat): Header {
    if p + HEADER <= |m| then
      Header(Decode(m[p..p + 8]), m[p + 8] != 0, Decode(m[p + 9..p + 17]), Decode(m[p + 17..p + 25]))
    else
      Header(0, false, 0, 0)
  }

  // The two memories agree on every byte outside lo, ..., hi - 1.
  ghost predicate SameOutside(m: seq<byte>, w: seq<byte>, lo: nat, hi: nat) {
    |m| == |w| && forall x :: 0 <= x < |m| && (x < lo || hi <= x) ==> w[x] == m[x]
  }

  ghost predicate SameHeaders(m: seq<byte>, w: seq<byte>, lo: nat, hi: nat) {
    forall q: nat :: q + HEADER <= lo || hi <= q ==> HeaderIn(w, q) == HeaderIn(m, q)
  }

  lemma {:induction false} HeadersOutside(m: seq<byte>, w: seq<byte>, lo: nat, hi: nat)
    requires SameOutside(m, w, lo, hi)
    ensures SameHeaders(m, w, lo, hi)
  {
    forall q: nat | q + HEADER <= lo || hi <= q ensures HeaderIn(w, q) == HeaderIn(m, q) {
      if q + HEADER <= |m| {
        assert w[q..q + 8] == m[q..q + 8];
        assert w[q + 9..q + 17] == m[q + 9..q + 17];
        assert w[q + 17..q + 25] == m[q + 17..q + 25];
      }
    }
  }

  // ----- Writing one field of the header at p

  function WithSize(m: seq<byte>, p: nat, v: nat): (w: seq<byte>)
    requires p + HEADER <= |m| && v < U64
    ensures SameOutside(m, w, p, p + HEADER) && SameHeaders(m, w, p, p + HEADER)
    ensures HeaderIn(w, p) == HeaderIn(m, p).(size := v)
  {
    Fits64(v);
    DecodeEncode(v, 8);
    PutElsewhere(m, p, Encode(v, 8), p + 9, 8);
    PutElsewhere(m, p, Encode(v, 8), p + 17, 8);
    HeadersOutside(m, Put(m, p, Encode(v, 8)), p, p + HEADER);
    Put(m, p, Encode(v, 8))
  }

  function WithFree(m: seq<byte>, p: nat, v: bool): (w: seq<byte>)
    requires p + HEADER <= |m|
    ensures SameOutside(m, w, p, p + HEADER) && SameHeaders(m, w, p, p + HEADER)
    ensures HeaderIn(w, p) == HeaderIn(m, p).(free := v)
  {
    var s: seq<byte> := [if v then 1 else 0];
    PutElsewhere(m, p + 8, s, p, 8);
    PutElsewhere(m, p + 8, s, p + 9, 8);
    PutElsewhere(m, p + 8, s, p + 17, 8);
    HeadersOutside(m, Put(m, p + 8, s), p, p + HEADER);
    assert Put(m, p + 8, s)[p + 8..p + 9][0] == s[0];
    Put(m, p + 8, s)
  }

  function WithNext(m: seq<byte>, p: nat, v: nat): (w: seq<byte>)
    requires p + HEADER <= |m| && v < U64
    ensures SameOutside(m, w, p, p + HEADER) && SameHeaders(m, w, p, p + HEADER)
    ensures HeaderIn(w, p) == HeaderIn(m, p).(next := v)
  {
    Fits64(v);
    DecodeEncode(v, 8);
    PutElsewhere(m, p + 9, Encode(v, 8), p, 8);
    PutElsewhere(m, p + 9, Encode(v, 8), p + 17, 8);
    HeadersOutside(m, Put(m, p + 9, Encode(v, 8)), p, p + HEADER);
    Put(m, p + 9, Encode(v, 8))
  }

  function WithPrev(m: seq<byte>, p: nat, v: nat): (w: seq<byte>)
    requires p + HEADER <= |m| && v < U64
    ensures SameOutside(m, w, p, p + HEADER) && SameHeaders(m, w, p, p + HEADER)
    ensures HeaderIn(w, p) == HeaderIn(m, p).(prev := v)
  {
    Fits64(v);
    DecodeEncode(v, 8);
    PutElsewhere(m, p + 17, Encode(v, 8), p, 8);
    PutElsewhere(m, p + 17, Encode(v, 8), p + 9, 8);
    HeadersOutside(m, Put(m, p + 17, Encode(v, 8)), p, p + HEADER);
    Put(m, p + 17, Encode(v, 8))
  }

  // ----- Chunk lists in memory

  // The header that chunk i of the arena must have.
  function Linked(r: Arena, i: nat): Header
    requires i < |r.chunks|
  {
    Header(r.chunks[i].size, r.chunks[i].free,
           if i + 1 < |r.chunks| then HeaderAt(r, i + 1) else 0,
           if i > 0 then HeaderAt(r, i - 1) else 0)
  }

  ghost predicate Represents(m: seq<byte>, r: Arena) {
    && 0 < r.base && r.base + ARENA_SIZE <= |m|
    && Tiles(r.chunks)
    && forall i {:trigger Linked(r, i)} :: 0 <= i < |r.chunks| ==> HeaderIn(m, HeaderAt(r, i)) == Linked(r, i)
  }

  // Headers i, ..., i + n are right, as far as they exist.
  ghost predicate HeadersLinked(m: seq<byte>, r: Arena, i: nat, n: nat) {
    forall j {:trigger Linked(r, j)} :: i <= j <= i + n && j < |r.chunks| ==> HeaderIn(m, HeaderAt(r, j)) == Linked(r, j)
  }

  lemma {:induction false} TwoLinked(w: seq<byte>, q: Arena, i: nat)
    requires i < |q.chunks| && HeaderIn(w, HeaderAt(q, i)) == Linked(q, i)
    requires i + 1 < |q.chunks| ==> HeaderIn(w, HeaderAt(q, i + 1)) == Linked(q, i + 1)
    ensures HeadersLinked(w, q, i, 1)
  {
  }

  lemma {:induction false} ThreeLinked(w: seq<byte>, q: Arena, i: nat)
    requires i + 1 < |q.chunks| && HeadersLinked(w, q, i, 1)
    requires i + 2 < |q.chunks| ==> HeaderIn(w, HeaderAt(q, i + 2)) == Linked(q, i + 2)
    ensures HeadersLinked(w, q, i, 2)
  {
  }

  // End of the header of chunk i, or of the arena when there is no chunk i.
  function HeaderEnd(r: Arena, i: nat): nat
    requires i <= |r.chunks|
  {
    if i < |r.chunks| then HeaderAt(r, i) + HEADER else HeaderAt(r, i)
  }

  lemma {:induction false} HeaderOrder(r: Arena, i: nat, j: nat)
    requires i < j <= |r.chunks|
    ensures HeaderAt(r, i) + HEADER + r.chunks[i].size <= HeaderAt(r, j)
  {
    OffsetOrder(r.chunks, i, j);
  }

  lemma {:induction false} HeaderInArena(r: Arena, i: nat)
    requires Tiles(r.chunks) && i < |r.chunks|
    ensures r.base <= HeaderAt(r, i) && PayloadAt(r, i) + r.chunks[i].size <= r.base + ARENA_SIZE
  {
    OffsetOrder(r.chunks, i, |r.chunks|);
  }

  // Writes between header i and header i + n that leave proper headers for rs
  // there turn a representation of r into one of the spliced arena.
  lemma {:induction false} Rewritten(m: seq<byte>, w: seq<byte>, r: Arena, i: nat, n: nat, rs: seq<Chunk>)
    requires Represents(m, r) && i + n <= |r.chunks| && rs != []
    requires Offset(rs, |rs|) == Offset(r.chunks[i..i + n], n)
    requires SameOutside(m, w, HeaderAt(r, i), HeaderEnd(r, i + n))
    requires HeadersLinked(w, r.(chunks := Splice(r.chunks, i, n, rs)), i, |rs|)
    ensures Represents(w, r.(chunks := Splice(r.chunks, i, n, rs)))
  {
    var q := r.(chunks := Splice(r.chunks, i, n, rs));
    SpliceTiles(r, i, n, rs);
    HeadersOutside(m, w, HeaderAt(r, i), HeaderEnd(r, i + n));
    forall j {:trigger Linked(q, j)} | 0 <= j < |q.chunks| ensures HeaderIn(w, HeaderAt(q, j)) == Linked(q, j) {
      if j < i {
        HeaderBefore(m, w, r, q, i, n, rs, j);
      } else if i + |rs| < j {
        HeaderBehind(m, w, r, q, i, n, rs, j - |rs| + n);
      }
    }
  }

  lemma {:induction false} HeaderBefore(m: seq<byte>, w: seq<byte>, r: Arena, q: Arena, i: nat, n: nat, rs: seq<Chunk>,
                                        j: nat)
    requires Represents(m, r) && j < i && i + n <= |r.chunks| && rs != [] && q == r.(chunks := Splice(r.chunks, i, n, rs))
    requires Offset(rs, |rs|) == Offset(r.chunks[i..i + n], n)
    requires SameHeaders(m, w, HeaderAt(r, i), HeaderEnd(r, i + n))
    ensures j < |q.chunks| && HeaderIn(w, HeaderAt(q, j)) == Linked(q, j)
  {
    PrefixLinked(r, q, i, n, rs, j);
    HeaderOrder(r, j, i);
    assert HeaderIn(m, HeaderAt(r, j)) == Linked(r, j);
  }

  lemma {:induction false} HeaderBehind(m: seq<byte>, w: seq<byte>, r: Arena, q: Arena, i: nat, n: nat, rs: seq<Chunk>,
                                        k: nat)
    requires Represents(m, r) && i + n < k < |r.chunks| && q == r.(chunks := Splice(r.chunks, i, n, rs))
    requires Offset(rs, |rs|) == Offset(r.chunks[i..i + n], n)
    requires SameHeaders(m, w, HeaderAt(r, i), HeaderEnd(r, i + n))
    ensures k - n + |rs| < |q.chunks| && HeaderIn(w, HeaderAt(q, k - n + |rs|)) == Linked(q, k - n + |rs|)
  {
    SuffixLinked(r, q, i, n, rs, k);
    HeaderOrder(r, i + n, k);
    assert HeaderIn(m, HeaderAt(r, k)) == Linked(r, k);
  }

  lemma {:induction false} SpliceTiles(r: Arena, i: nat, n: nat, rs: seq<Chunk>)
    requires Tiles(r.chunks) && i + n <= |r.chunks| && rs != []
    requires Offset(rs, |rs|) == Offset(r.chunks[i..i + n], n)
    ensures Tiles(Splice(r.chunks, i, n, rs))
  {
    SpliceOffsets(r.chunks, i, n, rs);
    assert Offset(Splice(r.chunks, i, n, rs), |r.chunks| - n + |rs|) == Offset(r.chunks, |r.chunks|);
  }

  lemma {:induction false} PrefixLinked(r: Arena, q: Arena, i: nat, n: nat, rs: seq<Chunk>, k: nat)
    requires k < i && i + n <= |r.chunks| && rs != [] && q == r.(chunks := Splice(r.chunks, i, n, rs))
    requires Offset(rs, |rs|) == Offset(r.chunks[i..i + n], n)
    ensures HeaderAt(q, k) == HeaderAt(r, k) && Linked(q, k) == Linked(r, k)
  {
    SpliceOffsets(r.chunks, i, n, rs);
    assert q.chunks[k] == r.chunks[k];
    assert Offset(q.chunks, k + 1) == Offset(r.chunks, k + 1);
  }

  lemma {:induction false} SuffixLinked(r: Arena, q: Arena, i: nat, n: nat, rs: seq<Chunk>, k: nat)
    requires i + n < k < |r.chunks| && q == r.(chunks := Splice(r.chunks, i, n, rs))
    requires Offset(rs, |rs|) == Offset(r.chunks[i..i + n], n)
    ensures k - n + |rs| < |q.chunks| && HeaderAt(q, k - n + |rs|) == HeaderAt(r, k)
    ensures Linked(q, k - n + |rs|) == Linked(r, k)
  {
    SpliceOffsets(r.chunks, i, n, rs);
    var j := k - n + |rs|;
    assert q.chunks[j] == r.chunks[k];
    assert Offset(q.chunks, (k - 1) - n + |rs|) == Offset(r.chunks, k - 1);
    assert Offset(q.chunks, (k + 1) - n + |rs|) == Offset(r.chunks, k + 1);
  }

  // Where the chunks next to the spliced ones point afterwards.
  lemma {:induction false} SplicedLinks(r: Arena, q: Arena, i: nat, n: nat, rs: seq<Chunk>)
    requires i + n <= |r.chunks| && 0 < n && rs != [] && q == r.(chunks := Splice(r.chunks, i, n, rs))
    requires Offset(rs, |rs|) == Offset(r.chunks[i..i + n], n)
    ensures HeaderAt(q, i) == HeaderAt(r, i) && q.chunks[i] == rs[0]
    ensures Linked(q, i).prev == Linked(r, i).prev
    ensures |q.chunks| == |r.chunks| - n + |rs|
    ensures i + n < |r.chunks| ==>
      && HeaderAt(q, i + |rs|) == HeaderAt(r, i + n)
      && Linked(q, i + |rs|) == Linked(r, i + n).(prev := HeaderAt(q, i + |rs| - 1))
  {
    SpliceOffsets(r.chunks, i, n, rs);
    if i > 0 { assert HeaderAt(q, i - 1) == HeaderAt(r, i - 1); }
    if i + n < |r.chunks| {
      assert Offset(q.chunks, (i + n) - n + |rs|) == Offset(r.chunks, i + n);
      assert q.chunks[i + |rs|] == r.chunks[i + n];
      assert Offset(q.chunks, (i + n + 1) - n + |rs|) == Offset(r.chunks, i + n + 1);
    }
  }

  // Memory of the other arenas, which the writes do not reach.
  lemma {:induction false} OtherArena(m: seq<byte>, w: seq<byte>, r: Arena, lo: nat, hi: nat)
    requires Represents(m, r) && SameOutside(m, w, lo, hi)
    requires r.base + ARENA_SIZE <= lo || hi <= r.base
    ensures Represents(w, r)
  {
    HeadersOutside(m, w, lo, hi);
    forall i | 0 <= i < |r.chunks| ensures HeaderIn(w, HeaderAt(r, i)) == Linked(r, i) {
      HeaderInArena(r, i);
    }
  }

  // ----- Payload bytes

  ghost predicate SamePayload(m: seq<byte>, w: seq<byte>, x: Extent) {
    |m| == |w| && x.at + x.size <= |m| && m[x.at..x.at + x.size] == w[x.at..x.at + x.size]
  }

  // Live payloads do not meet the region from header i to the header of chunk
  // i + n when all chunks in between are free.
  lemma {:induction false} RegionApart(r: Arena, i: nat, n: nat, x: Extent)
    requires i + n <= |r.chunks| && x in LiveIn(r)
    requires forall j :: i <= j < i + n ==> r.chunks[j].free
    ensures x.at + x.size <= HeaderAt(r, i) || HeaderEnd(r, i + n) <= x.at
  {
    LiveFromBounds(r.chunks, r.base, x);
    var j: nat :| j < |r.chunks| && !r.chunks[j].free
      && x == Extent(r.base + Offset(r.chunks, j) + HEADER, r.chunks[j].size);
    if j < i { HeaderOrder(r, j, i); }
    if i + n < j { HeaderOrder(r, i + n, j); }
  }

  // A client that writes inside its own payload breaks no header.
  lemma {:induction false} ClientWrite(m: seq<byte>, w: seq<byte>, r: Arena, x: Extent)
    requires Represents(m, r) && x in LiveIn(r) && SameOutside(m, w, x.at, x.at + x.size)
    ensures Represents(w, r)
  {
    HeadersOutside(m, w, x.at, x.at + x.size);
    LiveFromBounds(r.chunks, r.base, x);
    var j: nat :| j < |r.chunks| && !r.chunks[j].free
      && x == Extent(r.base + Offset(r.chunks, j) + HEADER, r.chunks[j].size);
    forall i | 0 <= i < |r.chunks| ensures HeaderIn(w, HeaderAt(r, i)) == Linked(r, i) {
      if i < j { HeaderOrder(r, i, j); }
      if j < i { HeaderOrder(r, j, i); }
    }
  }
}
