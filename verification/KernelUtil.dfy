// The memory and string loops of src/kernel/util.c.
module KernelUtil {
  import opened Bytes

  // ----- Copying

  // kmemmove within one buffer: for every overlap, the destination receives
  // what the source held before the call.
  method Kmemmove(m: array<byte>, dst: nat, src: nat, size: nat)
    requires dst + size <= m.Length && src + size <= m.Length
    modifies m
    ensures m[..] == Put(old(m[..]), dst, old(m[src..src + size]))
  {
    ghost var was := m[..];
    if dst < src {
      MoveUp(m, dst, src, size);
    } else {
      MoveDown(m, dst, src, size);
    }
    Moved(was, m[..], dst, src, size);
  }

  // Every byte after a move, one by one.
  ghost predicate IsMoved(was: seq<byte>, now: seq<byte>, dst: nat, src: nat, size: nat)
    requires dst + size <= |was| && src + size <= |was|
  {
    && |now| == |was|
    && (forall x :: dst <= x < dst + size ==> now[x] == was[src + (x - dst)])
    && (forall x :: 0 <= x < |was| && !(dst <= x < dst + size) ==> now[x] == was[x])
  }

  lemma {:induction false} Moved(was: seq<byte>, now: seq<byte>, dst: nat, src: nat, size: nat)
    requires dst + size <= |was| && src + size <= |was| && IsMoved(was, now, dst, src, size)
    ensures now == Put(was, dst, was[src..src + size])
  {
    var r := Put(was, dst, was[src..src + size]);
    forall x | 0 <= x < |was| ensures now[x] == r[x] {
      if dst <= x < dst + size { assert r[dst..dst + size][x - dst] == was[src..src + size][x - dst]; }
    }
  }

  // The loop for a destination below the source.
  method MoveUp(m: array<byte>, dst: nat, src: nat, size: nat)
    requires dst < src && src + size <= m.Length
    modifies m
    ensures IsMoved(old(m[..]), m[..], dst, src, size)
  {
    for i := 0 to size
      invariant forall x :: dst <= x < dst + i ==> m[x] == old(m[src + (x - dst)])
      invariant forall x :: 0 <= x < m.Length && !(dst <= x < dst + i) ==> m[x] == old(m[x])
    {
      m[dst + i] := m[src + i];
    }
  }

  // The loop for a destination at or above the source.
  method MoveDown(m: array<byte>, dst: nat, src: nat, size: nat)
    requires src <= dst && dst + size <= m.Length
    modifies m
    ensures IsMoved(old(m[..]), m[..], dst, src, size)
  {
    for i := size downto 0
      invariant forall x :: dst + i <= x < dst + size ==> m[x] == old(m[src + (x - dst)])
      invariant forall x :: 0 <= x < m.Length && !(dst + i <= x < dst + size) ==> m[x] == old(m[x])
    {
      m[dst + i] := m[src + i];
    }
  }

  // kmemcpy between two objects, as its restrict pointers demand.
  method Kmemcpy(to: array<byte>, dst: nat, from: array<byte>, src: nat, size: nat)
    requires to != from && dst + size <= to.Length && src + size <= from.Length
    modifies to
    ensures to[..] == Put(old(to[..]), dst, from[src..src + size])
  {
    for i := 0 to size
      invariant to[dst..dst + i] == from[src..src + i]
      invariant forall x :: 0 <= x < to.Length && !(dst <= x < dst + i) ==> to[x] == old(to[x])
    {
      to[dst + i] := from[src + i];
    }
  }

  // kmemset: the value is cut to a byte.
  method Kmemset(m: array<byte>, a: nat, c: int, size: nat)
    requires a + size <= m.Length
    modifies m
    ensures forall x :: a <= x < a + size ==> m[x] == c % 256
    ensures forall x :: 0 <= x < m.Length && !(a <= x < a + size) ==> m[x] == old(m[x])
  {
    var p: nat, left: nat := a, size;
    while left > 0
      invariant p + left == a + size && p >= a
      invariant forall x :: a <= x < p ==> m[x] == c % 256
      invariant forall x :: 0 <= x < m.Length && !(a <= x < p) ==> m[x] == old(m[x])
    {
      left := left - 1;
      m[p] := c % 256;
      p := p + 1;
    }
  }

  // ----- Strings that end in a zero byte

  predicate Terminated(m: seq<byte>, a: nat) {
    exists z :: a <= z < |m| && m[z] == 0
  }

  // s is the string at address a of m.
  predicate IsString(m: seq<byte>, a: nat, s: seq<byte>) {
    && a + |s| < |m| && m[a + |s|] == 0
    && forall i :: 0 <= i < |s| ==> m[a + i] == s[i] && s[i] != 0
  }

  lemma {:induction false} NoZero(m: seq<byte>, a: nat, s: seq<byte>, i: nat)
    requires IsString(m, a, s) && i < |s|
    ensures m[a + i] == s[i] && s[i] != 0
  {
  }

  lemma {:induction false} NotLonger(m: seq<byte>, a: nat, s: seq<byte>, t: seq<byte>)
    requires IsString(m, a, s) && IsString(m, a, t)
    ensures |t| <= |s|
  {
    if |s| < |t| { NoZero(m, a, t, |s|); }
  }

  lemma {:induction false} OneString(m: seq<byte>, a: nat, s: seq<byte>, t: seq<byte>)
    requires IsString(m, a, s) && IsString(m, a, t)
    ensures s == t
  {
    NotLonger(m, a, s, t);
    NotLonger(m, a, t, s);
    assert forall i :: 0 <= i < |s| ==> s[i] == t[i];
  }

  method Kstrlen(m: seq<byte>, a: nat) returns (len: nat)
    requires Terminated(m, a)
    ensures a + len < |m| && IsString(m, a, m[a..a + len])
  {
    ghost var z :| a <= z < |m| && m[z] == 0;
    len := 0;
    while m[a + len] != 0
      invariant a + len <= z
      invariant forall i :: a <= i < a + len ==> m[i] != 0
      decreases z - len
    {
      len := len + 1;
    }
  }

  // char is signed: the byte itself below 128, and always the number of that
  // residue in [-128, 128).
  function Char(b: byte): (c: int)
    ensures -128 <= c < 128 && (c - b) % 256 == 0 && (c == b <==> b < 128)
  {
    if b < 128 then b else b - 256
  }

  // The first place at which s and t, with their final zeros, differ or end.
  function Meets(s: seq<byte>, t: seq<byte>): (d: nat)
    ensures d <= |s| && d <= |t| && s[..d] == t[..d]
    ensures d < |s| && d < |t| ==> s[d] != t[d]
  {
    if s == [] || t == [] || s[0] != t[0] then 0 else
      assert s == [s[0]] + s[1..] && t == [t[0]] + t[1..];
      1 + Meets(s[1..], t[1..])
  }

  lemma {:induction false} MeetsAtLeast(s: seq<byte>, t: seq<byte>, i: nat)
    requires i <= |s| && i <= |t| && s[..i] == t[..i]
    ensures Meets(s, t) >= i
  {
    if i > 0 {
      assert s[..i][0] == t[..i][0] && s[1..][..i - 1] == s[..i][1..] && t[1..][..i - 1] == t[..i][1..];
      MeetsAtLeast(s[1..], t[1..], i - 1);
    }
  }

  lemma {:induction false} SameBelow(s: seq<byte>, t: seq<byte>, i: nat)
    requires i < Meets(s, t)
    ensures s[i] == t[i]
  {
    var d := Meets(s, t);
    assert s[..d][i] == t[..d][i];
  }

  lemma {:induction false} MeetsAt(s: seq<byte>, t: seq<byte>, i: nat)
    requires i <= |s| && i <= |t| && s[..i] == t[..i]
    requires At(s, i) != At(t, i)
    ensures Meets(s, t) == i
  {
    MeetsAtLeast(s, t, i);
    if i < Meets(s, t) { SameBelow(s, t, i); }
  }

  // The character that a C program reads at index i of s.
  function At(s: seq<byte>, i: nat): byte
    requires i <= |s|
  {
    if i < |s| then s[i] else 0
  }

  // kstrncmp: it also compares the character at index len, so 0 says that the
  // first len + 1 characters agree.
  method Kstrncmp(m: seq<byte>, a: nat, n: seq<byte>, b: nat, len: nat, ghost s: seq<byte>, ghost t: seq<byte>)
    returns (r: int)
    requires IsString(m, a, s) && IsString(n, b, t)
    ensures r == 0 <==> s == t || Meets(s, t) > len
    ensures r == -1 <==>
      var d := Meets(s, t); d < len && d < |s| && d < |t| && Char(s[d]) < Char(t[d])
    ensures -1 <= r <= 1
  {
    var i := 0;
    while m[a + i] != 0 && n[b + i] != 0 && i < len
      invariant i <= |s| && i <= |t| && i <= len && s[..i] == t[..i]
      decreases |s| - i
    {
      if m[a + i] != n[b + i] { MeetsAt(s, t, i); }
      if Char(m[a + i]) < Char(n[b + i]) { return -1; }
      if Char(m[a + i]) > Char(n[b + i]) { return 1; }
      i := i + 1;
    }
    CompareLast(s, t, i, len);
    r := if m[a + i] == n[b + i] then 0 else 1;
  }

  // What the last comparison of kstrncmp says.
  lemma {:induction false} CompareLast(s: seq<byte>, t: seq<byte>, i: nat, len: nat)
    requires i <= |s| && i <= |t| && i <= len && s[..i] == t[..i]
    requires 0 !in s && 0 !in t
    requires i == |s| || i == |t| || i == len
    ensures At(s, i) == At(t, i) <==> s == t || Meets(s, t) > len
    ensures Meets(s, t) >= i
  {
    MeetsAtLeast(s, t, i);
    if At(s, i) != At(t, i) {
      MeetsAt(s, t, i);
    } else if i < |s| && i < |t| {
      assert s[..i + 1] == s[..i] + [s[i]] && t[..i + 1] == t[..i] + [t[i]];
      MeetsAtLeast(s, t, i + 1);
    } else {
      assert s == s[..i] && t == t[..i];
    }
  }

  // kstrcmp_s: 0 exactly for equal strings.
  method KstrcmpS(m: seq<byte>, a: nat, n: seq<byte>, b: nat, ghost s: seq<byte>, ghost t: seq<byte>)
    returns (r: int)
    requires IsString(m, a, s) && IsString(n, b, t)
    ensures r == 0 <==> s == t
    ensures -1 <= r <= 1
  {
    var len := Kstrlen(m, a);
    OneString(m, a, s, m[a..a + len]);
    r := Kstrncmp(m, a, n, b, len, s, t);
  }
}
