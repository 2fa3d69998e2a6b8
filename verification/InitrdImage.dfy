// The bytes of an initrd image: headers, files and their places.
module InitrdImage {
  import opened Bytes
  import opened KernelUtil

  const HEADER_MAGIC: nat := 0x1337_1338
  const FILE_MAGIC: nat := 0xdead_beef
  const DIR_MAGIC: nat := 0xcafe_babe

  const NAME_MAXLEN: nat := 64
  const MAX_FILES: nat := 5
  const MAX_DIRS: nat := 5

  // sizeof(disk_header_t), sizeof(dir_header_t), sizeof(file_header_t)
  const DISK_HEADER: nat := 32
  const DIR_HEADER: nat := 100
  const FILE_HEADER: nat := 76

  // file_offsets
  type Offsets = s: seq<nat> | |s| == 5 witness [0, 0, 0, 0, 0]

  datatype File = File(name: seq<byte>, size: nat, inode: nat, content: seq<byte>)
  datatype Dir = Dir(name: seq<byte>, size: nat, numFiles: nat, inode: nat, offsets: Offsets, files: seq<File>)

  // A name that fits its field with a final zero.
  predicate Named(s: seq<byte>) {
    0 < |s| < NAME_MAXLEN && 0 !in s
  }

  // ----- Layout

  // strncpy into a name field
  function Field(name: seq<byte>): (r: seq<byte>)
    ensures |r| == NAME_MAXLEN
  {
    if |name| >= NAME_MAXLEN then name[..NAME_MAXLEN] else name + seq(NAME_MAXLEN - |name|, _ => 0)
  }

  // uint32_t fields in a row
  function Words(ns: seq<nat>): (r: seq<byte>)
    ensures |r| == 4 * |ns|
  {
    if ns == [] then [] else Encode(ns[0], 4) + Words(ns[1..])
  }

  function DirHeader(d: Dir): (r: seq<byte>)
    ensures |r| == DIR_HEADER
  {
    Field(d.name) + Words([d.size, d.numFiles, d.inode, DIR_MAGIC] + d.offsets)
  }

  function FileHeader(f: File): (r: seq<byte>)
    ensures |r| == FILE_HEADER
  {
    Field(f.name) + Words([f.size, f.inode, FILE_MAGIC])
  }

  function DiskHeader(size: nat): (r: seq<byte>)
    ensures |r| == DISK_HEADER
  {
    Words([size, HEADER_MAGIC, 0, 0, 0, 0, 0, 0])
  }

  // A file as it stands in the image.
  function FileBytes(f: File): (r: seq<byte>)
    ensures |r| == FILE_HEADER + |f.content|
  {
    FileHeader(f) + f.content
  }

  function FilesLen(fs: seq<File>): nat {
    if fs == [] then 0 else FilesLen(fs[..|fs| - 1]) + FILE_HEADER + |fs[|fs| - 1].content|
  }

  // The bytes of all xs, one behind the other.
  function Joined<T>(xs: seq<T>, bytes: T -> seq<byte>): seq<byte> {
    if xs == [] then [] else Joined(xs[..|xs| - 1], bytes) + bytes(xs[|xs| - 1])
  }

  function FilesImage(fs: seq<File>): (r: seq<byte>)
    ensures |r| == FilesLen(fs)
  {
    FilesImageLen(fs);
    Joined(fs, FileBytes)
  }

  lemma {:induction false} FilesImageLen(fs: seq<File>)
    ensures |Joined(fs, FileBytes)| == FilesLen(fs)
  {
    if fs != [] { FilesImageLen(fs[..|fs| - 1]); }
  }

  // A directory with its files.
  function DirBytes(d: Dir): (r: seq<byte>)
    ensures |r| == DIR_HEADER + FilesLen(d.files)
  {
    DirHeader(d) + FilesImage(d.files)
  }

  function DirsLen(ds: seq<Dir>): nat {
    if ds == [] then 0 else DirsLen(ds[..|ds| - 1]) + DIR_HEADER + FilesLen(ds[|ds| - 1].files)
  }

  function DirsImage(ds: seq<Dir>): (r: seq<byte>)
    ensures |r| == DirsLen(ds)
  {
    DirsImageLen(ds);
    Joined(ds, DirBytes)
  }

  lemma {:induction false} DirsImageLen(ds: seq<Dir>)
    ensures |Joined(ds, DirBytes)| == DirsLen(ds)
  {
    if ds != [] { DirsImageLen(ds[..|ds| - 1]); }
  }

  // ----- Reading the layout back

  // Memory m holds s at address a.
  predicate Holds(m: seq<byte>, a: nat, s: seq<byte>) {
    a + |s| <= |m| && forall i :: 0 <= i < |s| ==> m[a + i] == s[i]
  }

  lemma {:induction false} HeldSlice(m: seq<byte>, a: nat, s: seq<byte>)
    requires Holds(m, a, s)
    ensures m[a..a + |s|] == s
  {
  }

  function Word(m: seq<byte>, a: nat): nat
    requires a + 4 <= |m|
  {
    Decode(m[a..a + 4])
  }

  lemma {:induction false} HoldsBoth(m: seq<byte>, a: nat, s: seq<byte>, t: seq<byte>)
    requires Holds(m, a, s + t)
    ensures Holds(m, a, s) && Holds(m, a + |s|, t)
  {
    forall i | 0 <= i < |s| ensures m[a + i] == s[i] { assert (s + t)[i] == s[i]; }
    forall i | 0 <= i < |t| ensures m[a + |s| + i] == t[i] { assert (s + t)[|s| + i] == t[i]; }
  }

  lemma {:induction false} WordAt(m: seq<byte>, a: nat, ns: seq<nat>, k: nat)
    requires Holds(m, a, Words(ns)) && k < |ns| && ns[k] < U32
    ensures a + 4 * k + 4 <= |m| && Word(m, a + 4 * k) == ns[k]
    decreases k
  {
    HoldsBoth(m, a, Encode(ns[0], 4), Words(ns[1..]));
    if k == 0 {
      HeldSlice(m, a, Encode(ns[0], 4));
      Fits32(ns[0]);
      DecodeEncode(ns[0], 4);
    } else {
      WordAt(m, a + 4, ns[1..], k - 1);
    }
  }

  lemma {:induction false} FieldIsString(m: seq<byte>, a: nat, name: seq<byte>)
    requires Holds(m, a, Field(name)) && Named(name)
    ensures IsString(m, a, name)
  {
    var w := Field(name);
    assert w[|name|] == 0;
    forall i | 0 <= i < |name| ensures m[a + i] == name[i] && name[i] != 0 { assert w[i] == name[i]; }
  }

  lemma {:induction false} DirHeaderReads(m: seq<byte>, a: nat, d: Dir)
    requires Holds(m, a, DirHeader(d)) && Named(d.name)
    requires d.size < U32 && d.numFiles < U32 && d.inode < U32
    ensures a + DIR_HEADER <= |m| && IsString(m, a, d.name)
    ensures Word(m, a + 64) == d.size && Word(m, a + 68) == d.numFiles
    ensures Word(m, a + 72) == d.inode && Word(m, a + 76) == DIR_MAGIC
  {
    var ns := [d.size, d.numFiles, d.inode, DIR_MAGIC] + d.offsets;
    HoldsBoth(m, a, Field(d.name), Words(ns));
    FieldIsString(m, a, d.name);
    WordAt(m, a + 64, ns, 0);
    WordAt(m, a + 64, ns, 1);
    WordAt(m, a + 64, ns, 2);
    WordAt(m, a + 64, ns, 3);
  }

  lemma {:induction false} OffsetReads(m: seq<byte>, a: nat, d: Dir, i: nat)
    requires Holds(m, a, DirHeader(d)) && i < 5 && d.offsets[i] < U32
    ensures Word(m, a + 80 + 4 * i) == d.offsets[i]
  {
    var ns := [d.size, d.numFiles, d.inode, DIR_MAGIC] + d.offsets;
    HoldsBoth(m, a, Field(d.name), Words(ns));
    WordAt(m, a + 64, ns, 4 + i);
  }

  lemma {:induction false} FileHeaderReads(m: seq<byte>, a: nat, f: File)
    requires Holds(m, a, FileHeader(f)) && Named(f.name) && f.size < U32 && f.inode < U32
    ensures a + FILE_HEADER <= |m| && IsString(m, a, f.name)
    ensures Word(m, a + 64) == f.size && Word(m, a + 68) == f.inode && Word(m, a + 72) == FILE_MAGIC
  {
    var ns := [f.size, f.inode, FILE_MAGIC];
    HoldsBoth(m, a, Field(f.name), Words(ns));
    FieldIsString(m, a, f.name);
    WordAt(m, a + 64, ns, 0);
    WordAt(m, a + 64, ns, 1);
    WordAt(m, a + 64, ns, 2);
  }

  // Part i lies behind the parts before it.
  lemma {:induction false} PartAt<T>(m: seq<byte>, a: nat, xs: seq<T>, bytes: T -> seq<byte>, i: nat)
    requires Holds(m, a, Joined(xs, bytes)) && i < |xs|
    ensures Holds(m, a + |Joined(xs[..i], bytes)|, bytes(xs[i]))
    decreases |xs|
  {
    var n := |xs| - 1;
    var rest := xs[..n];
    HoldsBoth(m, a, Joined(rest, bytes), bytes(xs[n]));
    if i < n {
      PartAt(m, a, rest, bytes, i);
      assert rest[..i] == xs[..i];
    }
  }

  lemma {:induction false} FileAt(m: seq<byte>, a: nat, fs: seq<File>, i: nat)
    requires Holds(m, a, FilesImage(fs)) && i < |fs|
    ensures Holds(m, a + FilesLen(fs[..i]), FileBytes(fs[i]))
  {
    FilesImageLen(fs[..i]);
    PartAt(m, a, fs, FileBytes, i);
  }

  lemma {:induction false} FilesLenUpTo(fs: seq<File>, i: nat)
    requires i < |fs|
    ensures FilesLen(fs[..i]) + FILE_HEADER + |fs[i].content| <= FilesLen(fs)
    decreases |fs|
  {
    var n := |fs| - 1;
    if i < n {
      FilesLenUpTo(fs[..n], i);
      assert fs[..n][..i] == fs[..i];
    }
  }

  lemma {:induction false} DirAt(m: seq<byte>, a: nat, ds: seq<Dir>, i: nat)
    requires Holds(m, a, DirsImage(ds)) && i < |ds|
    ensures Holds(m, a + DirsLen(ds[..i]), DirBytes(ds[i]))
  {
    DirsImageLen(ds[..i]);
    PartAt(m, a, ds, DirBytes, i);
  }

  lemma {:induction false} DirsLenUpTo(ds: seq<Dir>, i: nat)
    requires i < |ds|
    ensures DirsLen(ds[..i]) + DIR_HEADER + FilesLen(ds[i].files) <= DirsLen(ds)
    decreases |ds|
  {
    var n := |ds| - 1;
    if i < n {
      DirsLenUpTo(ds[..n], i);
      assert ds[..n][..i] == ds[..i];
    }
  }
}
