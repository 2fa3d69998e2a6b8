// The reader of the image, src/fs/initramfs.c, with the seek of src/fs/file.c.
module Initramfs {
  import opened Bytes
  import opened KernelUtil
  import opened InitrdImage
  import opened Common

  // T_IFDIR and T_IFREG
  datatype Kind = Directory | Regular

  // The fields of inode_t and of its i_private_t that a lookup sets.
  datatype Node = Node(ino: nat, size: int, kind: Kind, pstart: nat, vstart: Option<nat>)
  datatype Outcome = Found(node: Node) | Failed(errno: int)

  // The header that a lookup stops at.
  datatype Hit = Hit(offset: nat, kind: Kind, ino: nat, size: nat)

  // i_size is an int.
  function Int32(n: nat): int {
    var k := n % U32;
    if k < 0x8000_0000 then k else k - U32
  }

  // The root directory of an image at ram.
  function Root(ram: nat): Node {
    Node(1, 0, Directory, ram + DISK_HEADER, Some(ram + DISK_HEADER))
  }

  // initramfs_init for an image of len bytes
  function Init(m: seq<byte>, ram: nat, len: nat): Outcome
    requires ram + DISK_HEADER <= |m|
  {
    if len == 0 || Word(m, ram + 4) != HEADER_MAGIC then Failed(ENXIO) else Found(Root(ram))
  }

  // Memory is identity mapped.
  predicate Mapped(n: Node) {
    n.kind == Directory ==> n.vstart == Some(n.pstart)
  }

  // ----- Lookup as a function

  // The header at address a, if it has this name.
  function Match(m: seq<byte>, a: nat, offset: nat, name: seq<byte>): Option<Hit>
    requires a + FILE_HEADER + 4 <= |m|
  {
    if Word(m, a + 76) == DIR_MAGIC && IsString(m, a, name) then
      Some(Hit(offset, Directory, Word(m, a + 72), Word(m, a + 64)))
    else if Word(m, a + 72) == FILE_MAGIC && IsString(m, a, name) then
      Some(Hit(offset, Regular, Word(m, a + 68), Word(m, a + 64)))
    else None
  }

  function NumFiles(m: seq<byte>, base: nat): nat
    requires base + DIR_HEADER <= |m|
  {
    Word(m, base + 68)
  }

  function OffsetAt(m: seq<byte>, base: nat, i: nat): nat
    requires base + DIR_HEADER <= |m| && i < MAX_FILES
  {
    Word(m, base + 80 + 4 * i)
  }

  // What a header must be for the reader to look at it.
  predicate ReadableEntry(m: seq<byte>, a: nat) {
    && a + FILE_HEADER + 4 <= |m|
    && (Word(m, a + 76) == DIR_MAGIC || Word(m, a + 72) == FILE_MAGIC ==> Terminated(m, a))
  }

  predicate Readable(m: seq<byte>, base: nat) {
    && base + DIR_HEADER <= |m| && NumFiles(m, base) <= MAX_FILES
    && forall i {:trigger OffsetAt(m, base, i)} :: 0 <= i < NumFiles(m, base) ==> ReadableEntry(m, base + OffsetAt(m, base, i))
  }

  function FirstHit(m: seq<byte>, base: nat, name: seq<byte>, i: nat): Option<Hit>
    requires Readable(m, base)
    decreases m, NumFiles(m, base) - i
  {
    if i >= NumFiles(m, base) then None else
      var offset := OffsetAt(m, base, i);
      var h := Match(m, base + offset, offset, name);
      if h.Some? then h else FirstHit(m, base, name, i + 1)
  }

  function NodeOf(parent: Node, h: Hit): Node {
    Node(h.ino, Int32(h.size), h.kind, parent.pstart + h.offset,
         if h.kind == Directory then Some(parent.pstart + h.offset) else None)
  }

  function Lookup(m: seq<byte>, parent: Node, name: seq<byte>): Outcome
    requires parent.kind == Directory ==> Readable(m, parent.pstart)
  {
    if parent.kind != Directory then Failed(ENOTDIR)
    else match FirstHit(m, parent.pstart, name, 0)
      case None => Failed(ENOENT)
      case Some(h) => Found(NodeOf(parent, h))
  }

  // ----- Lookup as the program does it

  method SameName(m: seq<byte>, a: nat, name: seq<byte>) returns (same: bool)
    requires Terminated(m, a) && 0 !in name
    ensures same <==> IsString(m, a, name)
  {
    ghost var len := Kstrlen(m, a);
    ghost var s := m[a..a + len];
    assert IsString(name + [0], 0, name);
    var r := KstrcmpS(m, a, name + [0], 0, s, name);
    if IsString(m, a, name) { OneString(m, a, s, name); }
    same := r == 0;
  }

  // The loop of initramfs_inode_lookup.
  method FindEntry(m: seq<byte>, base: nat, name: seq<byte>) returns (r: Option<Hit>)
    requires Readable(m, base) && 0 !in name
    ensures r == FirstHit(m, base, name, 0)
  {
    var num := NumFiles(m, base);
    for i := 0 to num
      invariant FirstHit(m, base, name, 0) == FirstHit(m, base, name, i)
    {
      var offset := OffsetAt(m, base, i);
      r := TryEntry(m, base + offset, offset, name);
      if r.Some? { return; }
    }
    r := None;
  }

  // One turn of the loop.
  method TryEntry(m: seq<byte>, a: nat, offset: nat, name: seq<byte>) returns (r: Option<Hit>)
    requires ReadableEntry(m, a) && 0 !in name
    ensures r == Match(m, a, offset, name)
  {
    if Word(m, a + 76) == DIR_MAGIC {
      var same := SameName(m, a, name);
      if same { return Some(Hit(offset, Directory, Word(m, a + 72), Word(m, a + 64))); }
    }
    if Word(m, a + 72) == FILE_MAGIC {
      var same := SameName(m, a, name);
      if same { return Some(Hit(offset, Regular, Word(m, a + 68), Word(m, a + 64))); }
    }
    r := None;
  }

  // initramfs_inode_lookup: both ways to place the inode give the same address.
  method InodeLookup(m: seq<byte>, parent: Node, name: seq<byte>) returns (r: Outcome)
    requires Mapped(parent) && 0 !in name
    requires parent.kind == Directory ==> Readable(m, parent.pstart)
    ensures r == Lookup(m, parent, name)
    ensures r.Found? ==> Mapped(r.node)
  {
    if parent.kind != Directory { return Failed(ENOTDIR); }
    var hit := FindEntry(m, parent.vstart.value, name);
    if hit == None { return Failed(ENOENT); }
    var h := hit.value;
    var parentStart := parent.pstart % U32;
    var boundary := parentStart - parentStart % PAGE_SIZE;
    var offStart := (parentStart + h.offset - boundary) % U32;
    var pstart, vstart := parent.pstart + h.offset, None;
    if h.kind == Directory && (offStart + h.size) % U32 > PAGE_SIZE {
      vstart := Some(parent.pstart + h.offset);
    } else if h.kind == Directory {
      vstart := Some(parent.vstart.value + h.offset);
    }
    r := Found(Node(h.ino, Int32(h.size), h.kind, pstart, vstart));
  }

  // ----- Reading

  // The size as file_generic_seek takes it.
  function Size(n: Node): int {
    if n.size < 0 then n.size + U32 else n.size
  }

  // off_t does not overflow.
  predicate OffT(x: int) {
    -0x8000_0000_0000_0000 < x < 0x8000_0000_0000_0000
  }

  // now is was with the count bytes at address a of m at its front.
  predicate Delivered(was: seq<byte>, now: seq<byte>, m: seq<byte>, a: int, count: nat) {
    && 0 <= a && a + count <= |m| && count <= |was| == |now|
    && (forall k :: 0 <= k < count ==> now[k] == m[a + k])
    && (forall k :: count <= k < |was| ==> now[k] == was[k])
  }

  method CopyOut(m: array<byte>, a: nat, count: nat, buf: array<byte>)
    requires buf != m && a + count <= m.Length && count <= buf.Length
    modifies buf
    ensures Delivered(old(buf[..]), buf[..], m[..], a, count)
  {
    Kmemcpy(buf, 0, m, a, count);
    PutDelivers(old(buf[..]), buf[..], m[a..a + count]);
  }

  lemma {:induction false} PutDelivers(was: seq<byte>, now: seq<byte>, s: seq<byte>)
    requires |s| <= |was| && now == Put(was, 0, s)
    ensures |now| == |was| && (forall k :: 0 <= k < |s| ==> now[k] == s[k]) && (forall k :: |s| <= k < |was| ==> now[k] == was[k])
  {
    forall k | 0 <= k < |s| ensures now[k] == s[k] { assert now[k] == now[..|s|][k]; }
  }

  // file_t with its f_private_t
  class OpenFile {
    const node: Node
    var pos: int
    var vstart: Option<nat>

    // initramfs_file_open of a regular file
    constructor (node: Node)
      requires node.kind == Regular
      ensures this.node == node && pos == 0 && vstart == None
    {
      this.node, pos, vstart := node, 0, None;
    }

    // file_generic_seek: the offset counts from the position.
    method Seek(off: int) returns (r: int)
      requires OffT(off) && OffT(pos + off)
      modifies this`pos
      ensures r == 0 <==> 0 <= old(pos) + off <= Size(node)
      ensures if r == 0 then pos == old(pos) + off else r == -ESPIPE && pos == old(pos)
    {
      if pos < -off || pos + off > Size(node) { return -ESPIPE; }
      pos := pos + off;
      r := 0;
    }

    // The end of initramfs_file_read, behind the seek.
    method Deliver(m: array<byte>, addr: nat, count: nat, buf: array<byte>) returns (r: int)
      requires 0 <= pos && addr + (if node.size < 0 then 0 else node.size) <= m.Length
      requires buf != m && count <= buf.Length
      modifies buf
      ensures r == if pos + count > node.size then -E2BIG else count
      ensures r < 0 ==> buf[..] == old(buf[..])
      ensures r >= 0 ==> Delivered(old(buf[..]), buf[..], m[..], addr + pos, count)
    {
      if count + pos > node.size { return -E2BIG; }
      CopyOut(m, addr + pos, count, buf);
      r := count;
    }

    // initramfs_file_read, with a buffer. A read does not move the position by
    // what it read, but it keeps the seek even where it returns -E2BIG.
    method Fetch(m: array<byte>, off: int, count: nat, buf: array<byte>) returns (r: int)
      requires OffT(off) && OffT(pos + off) && OffT(pos + off + count)
      requires node.pstart + FILE_HEADER + (if node.size < 0 then 0 else node.size) <= m.Length
      requires buf != m && count <= buf.Length
      requires vstart == None || vstart == Some(node.pstart)
      modifies this, buf
      ensures vstart == Some(node.pstart)
      ensures r == -ESPIPE <==> !(0 <= old(pos) + off <= Size(node))
      ensures pos == if r == -ESPIPE then old(pos) else old(pos) + off
      ensures r == -ESPIPE || r == if pos + count > node.size then -E2BIG else count
      ensures r < 0 ==> buf[..] == old(buf[..])
      ensures r >= 0 ==> Delivered(old(buf[..]), buf[..], m[..], node.pstart + FILE_HEADER + pos, count)
    {
      if vstart == None { vstart := Some(node.pstart); }
      var ret := Seek(off);
      var addr := vstart.value + FILE_HEADER;
      if ret < 0 { return ret; }
      r := Deliver(m, addr, count, buf);
    }

    // initramfs_file_read
    method Read(m: array<byte>, off: int, count: nat, buf: array?<byte>) returns (r: int)
      requires OffT(off) && OffT(pos + off) && OffT(pos + off + count)
      requires node.pstart + FILE_HEADER + (if node.size < 0 then 0 else node.size) <= m.Length
      requires buf != m && (buf != null ==> count <= buf.Length)
      requires vstart == None || vstart == Some(node.pstart)
      modifies this, if buf == null then {} else {buf}
      ensures vstart == None || vstart == Some(node.pstart)
      ensures if buf == null then r == -EINVAL && pos == old(pos) else
        && (r == -ESPIPE <==> !(0 <= old(pos) + off <= Size(node)))
        && pos == (if r == -ESPIPE then old(pos) else old(pos) + off)
        && (r == -ESPIPE || r == if pos + count > node.size then -E2BIG else count)
        && (r < 0 ==> buf[..] == old(buf[..]))
        && (r >= 0 ==> Delivered(old(buf[..]), buf[..], m[..], node.pstart + FILE_HEADER + pos, count))
    {
      if buf == null { return -EINVAL; }
      r := Fetch(m, off, count, buf);
    }
  }
}
