// The image writer toolchain/util/mkinitrd.c: its table of directories, which
// every -f argument extends, and the image that it writes from the table.
module MkInitrd {
  import opened Bytes
  import opened InitrdImage
  import opened Common

  const SLASH: byte := 47

  // One -f argument, its path already split: a host file and where it goes.
  datatype Arg = Arg(dir: seq<byte>, name: seq<byte>, content: seq<byte>)

  // The variables of main; dirs holds the used part of data.
  datatype Table = Table(dirs: seq<Dir>, dirPtr: nat, curOffset: nat, prevDir: seq<byte>, nextInode: nat)

  predicate ArgOk(a: Arg) {
    Named(a.dir) && Named(a.name)
  }

  function DirIndex(ds: seq<Dir>, name: seq<byte>): (i: nat)
    ensures i <= |ds|
    ensures i < |ds| ==> ds[i].name == name
    ensures forall j :: 0 <= j < i ==> ds[j].name != name
  {
    if ds == [] || ds[0].name == name then 0 else 1 + DirIndex(ds[1..], name)
  }

  predicate HasFile(fs: seq<File>, name: seq<byte>) {
    exists i :: 0 <= i < |fs| && fs[i].name == name
  }

  // cur_offset for the next file of d
  function NextOffset(d: Dir, curOffset: nat): nat {
    if d.files == [] then DIR_HEADER
    else (curOffset + FILE_HEADER + d.files[|d.files| - 1].size) % U32
  }

  // The directory with a file more; the size and num_files count it already.
  function WithFile(d: Dir, a: Arg, off: nat, inode: nat): Dir
    requires |d.files| < MAX_FILES
  {
    d.(offsets := d.offsets[|d.files| := off],
       files := d.files + [File(a.name, |a.content| % U32, inode % U32, a.content)])
  }

  function Counted(d: Dir, a: Arg): Dir {
    d.(size := (d.size + |a.content| % U32 + FILE_HEADER) % U32, numFiles := (d.numFiles + 1) % U32)
  }

  // From the label save_dir_data on.
  function Save(t: Table, a: Arg): Table
    requires t.dirPtr < |t.dirs|
  {
    var d := Counted(t.dirs[t.dirPtr], a);
    if HasFile(d.files, a.name) || |d.files| >= MAX_FILES then
      t.(dirs := t.dirs[t.dirPtr := d], prevDir := a.dir)
    else
      var off := NextOffset(t.dirs[t.dirPtr], t.curOffset);
      t.(dirs := t.dirs[t.dirPtr := WithFile(d, a, off, t.nextInode)], curOffset := off,
         prevDir := a.dir, nextInode := t.nextInode + 1)
  }

  // The directory that the argument goes to, which may be new.
  function Select(t: Table, a: Arg): Option<Table> {
    var i := DirIndex(t.dirs, a.dir);
    if a.dir == t.prevDir then Some(t)
    else if i < |t.dirs| then Some(t.(dirPtr := i))
    else if |t.dirs| >= MAX_DIRS then None
    else Some(t.(dirs := t.dirs + [Dir(a.dir, 0, 0, t.nextInode % U32, [0, 0, 0, 0, 0], [])],
                 dirPtr := |t.dirs|, nextInode := t.nextInode + 1))
  }

  // prev_dir, once set, names a directory of the table.
  predicate Coherent(t: Table) {
    t.prevDir != [] ==> t.dirPtr < |t.dirs|
  }

  // One turn of the argument loop; None where the program aborts.
  function Add(t: Table, a: Arg): (r: Option<Table>)
    requires Coherent(t) && ArgOk(a)
    ensures r.Some? ==> Coherent(r.value)
  {
    match Select(t, a)
    case None => None
    case Some(s) => Some(Save(s, a))
  }

  // ----- What the table must be

  predicate GoodFile(f: File) {
    Named(f.name) && f.size == |f.content| && f.inode < U32
  }

  // File i of the directory stands where its offset says.
  predicate OffsetRight(d: Dir, i: nat)
    requires i < |d.files| <= MAX_FILES
  {
    d.offsets[i] == DIR_HEADER + FilesLen(d.files[..i]) < U32
  }

  predicate Distinct(fs: seq<File>) {
    forall i, j :: 0 <= i < j < |fs| ==> fs[i].name != fs[j].name
  }

  predicate GoodDir(d: Dir) {
    && Named(d.name) && |d.files| <= MAX_FILES && d.numFiles == |d.files|
    && d.size == FilesLen(d.files) < U32 && d.inode < U32
    && (forall i :: 0 <= i < |d.files| ==> GoodFile(d.files[i]))
    && (forall i :: 0 <= i < |d.files| ==> OffsetRight(d, i))
    && Distinct(d.files)
  }

  // The table describes the image that will be written.
  predicate Good(t: Table) {
    && |t.dirs| <= MAX_DIRS && t.curOffset < U32
    && (forall i :: 0 <= i < |t.dirs| ==> GoodDir(t.dirs[i]) && t.dirs[i].files != [])
    && (forall i, j :: 0 <= i < j < |t.dirs| ==> t.dirs[i].name != t.dirs[j].name)
    && if t.dirs == [] then t.prevDir == [] else
      t.dirPtr < |t.dirs| && t.prevDir == t.dirs[t.dirPtr].name && t.curOffset == LastOffset(t.dirs[t.dirPtr])
  }

  function LastOffset(d: Dir): nat {
    if 0 < |d.files| <= MAX_FILES then d.offsets[|d.files| - 1] else 0
  }

  // The file can be added to directory d while cur_offset is curOffset.
  predicate Room(d: Dir, a: Arg, curOffset: nat) {
    && |d.files| < MAX_FILES && !HasFile(d.files, a.name)
    && DIR_HEADER + FilesLen(d.files) < U32 && FilesLen(d.files) + FILE_HEADER + |a.content| < U32
    && (d.files != [] ==> curOffset == LastOffset(d))
  }

  // The argument is handled correctly. In particular, a file for a directory
  // that is not the latest needs cur_offset to be right by chance.
  predicate Accepts(t: Table, a: Arg) {
    var i := DirIndex(t.dirs, a.dir);
    if i < |t.dirs| then Room(t.dirs[i], a, t.curOffset)
    else |t.dirs| < MAX_DIRS && FILE_HEADER + |a.content| < U32
  }

  // The file a is in the table.
  predicate Stored(ds: seq<Dir>, a: Arg) {
    exists i :: 0 <= i < |ds| && ds[i].name == a.dir && FileStored(ds[i].files, a)
  }

  predicate FileStored(fs: seq<File>, a: Arg) {
    exists j :: 0 <= j < |fs| && fs[j].name == a.name && fs[j].content == a.content
  }

  lemma {:induction false} FilesLenAppend(fs: seq<File>, f: File)
    ensures FilesLen(fs + [f]) == FilesLen(fs) + FILE_HEADER + |f.content|
  {
    assert (fs + [f])[..|fs|] == fs;
  }

  // cur_offset leads to the right place exactly when it is the offset of the
  // directory's last file.
  lemma {:induction false} OffsetExactly(d: Dir, curOffset: nat)
    requires GoodDir(d) && curOffset < U32
    ensures NextOffset(d, curOffset) == DIR_HEADER + FilesLen(d.files) < U32 <==>
      DIR_HEADER + FilesLen(d.files) < U32 && (d.files != [] ==> curOffset == LastOffset(d))
  {
    if d.files != [] {
      var n := |d.files| - 1;
      assert OffsetRight(d, n) && GoodFile(d.files[n]);
    }
  }

  lemma {:induction false} OneFileMore(d: Dir, e: Dir, n: nat)
    requires GoodDir(d) && n == |d.files| && |e.files| == n + 1 <= MAX_FILES && e.files[..n] == d.files
    requires e.name == d.name && e.inode == d.inode && e.numFiles == n + 1
    requires e.size == FilesLen(e.files) < U32
    requires GoodFile(e.files[n]) && OffsetRight(e, n) && !HasFile(d.files, e.files[n].name)
    requires forall i :: 0 <= i < n ==> e.offsets[i] == d.offsets[i]
    ensures GoodDir(e)
  {
    forall i | 0 <= i < n + 1 ensures OffsetRight(e, i) && GoodFile(e.files[i]) {
      if i < n { EarlierFile(d, e, i); }
    }
    NamesDistinct(d, e);
  }

  lemma {:induction false} RoomMeansGood(d: Dir, a: Arg, curOffset: nat, inode: nat)
    requires GoodDir(d) && Named(a.name) && curOffset < U32 && Room(d, a, curOffset)
    ensures GoodDir(WithFile(Counted(d, a), a, NextOffset(d, curOffset), inode))
  {
    var e := WithFile(Counted(d, a), a, NextOffset(d, curOffset), inode);
    var n := |d.files|;
    NewFile(d, a, curOffset, inode);
    assert e.files[..n] == d.files;
    OneFileMore(d, e, n);
  }

  lemma {:induction false} NewFile(d: Dir, a: Arg, curOffset: nat, inode: nat)
    requires GoodDir(d) && Named(a.name) && curOffset < U32 && Room(d, a, curOffset)
    ensures
      var e, n := WithFile(Counted(d, a), a, NextOffset(d, curOffset), inode), |d.files|;
      GoodFile(e.files[n]) && OffsetRight(e, n) && e.size == FilesLen(e.files) < U32 && e.numFiles == n + 1
  {
    var e, n := WithFile(Counted(d, a), a, NextOffset(d, curOffset), inode), |d.files|;
    OffsetExactly(d, curOffset);
    FilesLenAppend(d.files, e.files[n]);
    assert e.files[..n] == d.files;
  }

  lemma {:induction false} NamesDistinct(d: Dir, e: Dir)
    requires Distinct(d.files) && |e.files| == |d.files| + 1 && e.files[..|d.files|] == d.files
    requires !HasFile(d.files, e.files[|d.files|].name)
    ensures Distinct(e.files)
  {
    assert forall i :: 0 <= i < |d.files| ==> e.files[i] == e.files[..|d.files|][i];
  }

  lemma {:induction false} EarlierFile(d: Dir, e: Dir, i: nat)
    requires GoodDir(d) && i < |d.files| < |e.files| <= MAX_FILES
    requires e.files[..|d.files|] == d.files && e.offsets[i] == d.offsets[i]
    ensures OffsetRight(e, i) && GoodFile(e.files[i])
  {
    assert OffsetRight(d, i) && GoodFile(d.files[i]);
    assert e.files[i] == e.files[..|d.files|][i] && e.files[..i] == e.files[..|d.files|][..i];
  }

  lemma {:induction false} GoodMeansRoom(d: Dir, a: Arg, curOffset: nat, inode: nat)
    requires GoodDir(d) && |d.files| < MAX_FILES && !HasFile(d.files, a.name) && curOffset < U32
    requires GoodDir(WithFile(Counted(d, a), a, NextOffset(d, curOffset), inode))
    ensures Room(d, a, curOffset)
  {
    var e := WithFile(Counted(d, a), a, NextOffset(d, curOffset), inode);
    var n := |d.files|;
    OffsetExactly(d, curOffset);
    FilesLenAppend(d.files, e.files[n]);
    assert OffsetRight(e, n) && e.files[..n] == d.files;
  }

  // What Save makes of the directory.
  function Saved(d: Dir, a: Arg, curOffset: nat, inode: nat): Dir {
    var c := Counted(d, a);
    if HasFile(d.files, a.name) || |d.files| >= MAX_FILES then c
    else WithFile(c, a, NextOffset(d, curOffset), inode)
  }

  // A good directory takes a file correctly exactly when it has room for it.
  lemma {:induction false} SavedExactly(d: Dir, a: Arg, curOffset: nat, inode: nat)
    requires GoodDir(d) && Named(a.name) && curOffset < U32
    ensures GoodDir(Saved(d, a, curOffset, inode)) <==> Room(d, a, curOffset)
  {
    if |d.files| < MAX_FILES && !HasFile(d.files, a.name) {
      if Room(d, a, curOffset) { RoomMeansGood(d, a, curOffset, inode); }
      if GoodDir(Saved(d, a, curOffset, inode)) { GoodMeansRoom(d, a, curOffset, inode); }
    }
  }

  lemma {:induction false} SaveIs(t: Table, a: Arg)
    requires t.dirPtr < |t.dirs|
    ensures
      var d := t.dirs[t.dirPtr];
      && Save(t, a).dirs == t.dirs[t.dirPtr := Saved(d, a, t.curOffset, t.nextInode)]
      && Save(t, a).prevDir == a.dir && Save(t, a).dirPtr == t.dirPtr
      && (Room(d, a, t.curOffset) ==> Save(t, a).curOffset == NextOffset(d, t.curOffset))
  {
  }

  // The directories that Save starts from; only the selected one may be empty.
  predicate Selected(t: Table, a: Arg) {
    && |t.dirs| <= MAX_DIRS && t.dirPtr < |t.dirs| && t.dirs[t.dirPtr].name == a.dir
    && t.curOffset < U32
    && (forall i :: 0 <= i < |t.dirs| ==> GoodDir(t.dirs[i]) && (i != t.dirPtr ==> t.dirs[i].files != []))
    && (forall i, j :: 0 <= i < j < |t.dirs| ==> t.dirs[i].name != t.dirs[j].name)
  }

  lemma {:induction false} SelectKeeps(t: Table, a: Arg)
    requires Good(t) && ArgOk(a)
    ensures Select(t, a).None? <==> DirIndex(t.dirs, a.dir) == |t.dirs| == MAX_DIRS
    ensures Select(t, a).Some? ==>
      && Selected(Select(t, a).value, a)
      && (Accepts(t, a) <==> Room(Select(t, a).value.dirs[Select(t, a).value.dirPtr], a, t.curOffset))
  {
  }

  lemma {:induction false} SaveKeeps(t: Table, a: Arg)
    requires Selected(t, a) && ArgOk(a)
    ensures Good(Save(t, a)) <==> Room(t.dirs[t.dirPtr], a, t.curOffset)
  {
    var d := t.dirs[t.dirPtr];
    var s := Save(t, a);
    SaveIs(t, a);
    SavedExactly(d, a, t.curOffset, t.nextInode);
    if Room(d, a, t.curOffset) {
      OffsetExactly(d, t.curOffset);
    } else {
      assert !GoodDir(s.dirs[t.dirPtr]);
    }
  }

  // Main result: a good table stays good exactly under the arguments that
  // Accepts describes.
  lemma {:induction false} AcceptsExactly(t: Table, a: Arg)
    requires Good(t) && ArgOk(a)
    ensures Accepts(t, a) <==> Add(t, a).Some? && Good(Add(t, a).value)
  {
    SelectKeeps(t, a);
    if Select(t, a).Some? { SaveKeeps(Select(t, a).value, a); }
  }

  lemma {:induction false} FileStoredMore(fs: seq<File>, f: File, b: Arg)
    ensures FileStored(fs + [f], b) <==> FileStored(fs, b) || (f.name == b.name && f.content == b.content)
  {
    assert (fs + [f])[|fs|] == f;
    assert forall j :: 0 <= j < |fs| ==> (fs + [f])[j] == fs[j];
  }

  lemma {:induction false} FileIsStored(ds: seq<Dir>, i: nat, j: nat)
    requires i < |ds| && j < |ds[i].files|
    ensures Stored(ds, Arg(ds[i].name, ds[i].files[j].name, ds[i].files[j].content))
  {
    assert FileStored(ds[i].files, Arg(ds[i].name, ds[i].files[j].name, ds[i].files[j].content));
  }

  lemma {:induction false} StoredUpdate(ds: seq<Dir>, i: nat, d: Dir, a: Arg, b: Arg)
    requires i < |ds| && ds[i].name == d.name == a.dir
    requires FileStored(d.files, b) <==> FileStored(ds[i].files, b) || (a.name == b.name && a.content == b.content)
    ensures Stored(ds[i := d], b) <==> Stored(ds, b) || b == a
  {
    var es := ds[i := d];
    assert es[i] == d && forall k :: 0 <= k < |ds| && k != i ==> es[k] == ds[k];
    if Stored(ds, b) {
      var k :| 0 <= k < |ds| && ds[k].name == b.dir && FileStored(ds[k].files, b);
      assert es[k].name == b.dir && FileStored(es[k].files, b);
    }
  }

  lemma {:induction false} StoredEmptyDir(ds: seq<Dir>, d: Dir, b: Arg)
    requires d.files == []
    ensures Stored(ds + [d], b) <==> Stored(ds, b)
  {
    var es := ds + [d];
    assert es[|ds|] == d && forall k :: 0 <= k < |ds| ==> es[k] == ds[k];
    if Stored(ds, b) {
      var k :| 0 <= k < |ds| && ds[k].name == b.dir && FileStored(ds[k].files, b);
      assert es[k].name == b.dir && FileStored(es[k].files, b);
    }
  }

  // An accepted argument adds its file and changes no other.
  lemma {:induction false} AddStores(t: Table, a: Arg, b: Arg)
    requires Good(t) && ArgOk(a) && Accepts(t, a)
    ensures Add(t, a).Some?
    ensures Stored(Add(t, a).value.dirs, b) <==> Stored(t.dirs, b) || b == a
  {
    SelectKeeps(t, a);
    var s := Select(t, a).value;
    if s.dirs != t.dirs { StoredEmptyDir(t.dirs, s.dirs[|t.dirs|], b); }
    var d := s.dirs[s.dirPtr];
    SaveIs(s, a);
    var e := Saved(d, a, s.curOffset, s.nextInode);
    FileStoredMore(d.files, e.files[|d.files|], b);
    StoredUpdate(s.dirs, s.dirPtr, e, a, b);
  }

  // ----- All arguments

  const BLANK_TABLE: Table := Table([], 0, 0, [], 2)

  predicate AllOk(args: seq<Arg>) {
    forall a :: a in args ==> ArgOk(a)
  }

  // The table after all arguments; None when the program aborted.
  function Build(args: seq<Arg>): (r: Option<Table>)
    requires AllOk(args)
    ensures r.Some? ==> Coherent(r.value)
  {
    if args == [] then Some(BLANK_TABLE) else
      match Build(args[..|args| - 1])
      case None => None
      case Some(t) => Add(t, args[|args| - 1])
  }

  // Every argument meets a table that accepts it.
  predicate Usable(args: seq<Arg>)
    requires AllOk(args)
  {
    args == [] ||
    var rest := args[..|args| - 1];
    Usable(rest) && Build(rest).Some? && Accepts(Build(rest).value, args[|args| - 1])
  }

  ghost predicate StoresExactly(t: Table, args: seq<Arg>) {
    forall b :: Stored(t.dirs, b) <==> b in args
  }

  lemma {:induction false} StoresOneMore(t: Table, rest: seq<Arg>, a: Arg)
    requires Good(t) && ArgOk(a) && Accepts(t, a) && StoresExactly(t, rest)
    ensures Add(t, a).Some? && Good(Add(t, a).value) && StoresExactly(Add(t, a).value, rest + [a])
  {
    AcceptsExactly(t, a);
    forall b ensures Stored(Add(t, a).value.dirs, b) <==> b in rest + [a] { AddStores(t, a, b); }
  }

  // Main result: the table holds exactly the files of the arguments, each
  // where the offsets say.
  lemma {:induction false} BuildKeeps(args: seq<Arg>)
    requires AllOk(args) && Usable(args)
    ensures Build(args).Some? && Good(Build(args).value) && StoresExactly(Build(args).value, args)
  {
    if args != [] {
      UsableBefore(args);
      BuildKeeps(args[..|args| - 1]);
      BuildOneMore(args, args[..|args| - 1], args[|args| - 1]);
    }
  }

  lemma {:induction false} BuildOneMore(args: seq<Arg>, rest: seq<Arg>, a: Arg)
    requires args != [] && rest == args[..|args| - 1] && a == args[|args| - 1]
    requires AllOk(args) && AllOk(rest) && Usable(args)
    requires Build(rest).Some? && Good(Build(rest).value) && StoresExactly(Build(rest).value, rest)
    ensures Build(args).Some? && Good(Build(args).value) && StoresExactly(Build(args).value, args)
  {
    assert args == rest + [a];
    UsableBefore(args);
    StoresOneMore(Build(rest).value, rest, a);
  }

  lemma {:induction false} UsableBefore(args: seq<Arg>)
    requires args != [] && AllOk(args) && Usable(args)
    ensures
      var rest, a := args[..|args| - 1], args[|args| - 1];
      && AllOk(rest) && Usable(rest) && ArgOk(a) && Build(rest).Some?
      && Accepts(Build(rest).value, a) && Build(args) == Add(Build(rest).value, a)
  {
  }

  // ----- The image

  // What the writer needs of the table: without it, it opens files that have
  // no path or reads a directory before the first.
  predicate Writable(t: Table) {
    && |t.dirs| <= MAX_DIRS && (|t.dirs| >= 2 ==> 0 < t.dirPtr < |t.dirs|)
    && forall i :: 0 <= i < |t.dirs| ==> t.dirs[i].numFiles == |t.dirs[i].files|
  }

  // root.file_offsets[i], which counts the same directory size at every step
  function RootOffset(t: Table, i: nat): nat
    requires i > 0 ==> 0 < t.dirPtr < |t.dirs|
  {
    if i == 0 then DIR_HEADER
    else (RootOffset(t, i - 1) + DIR_HEADER + t.dirs[t.dirPtr - 1].size) % U32
  }

  function RootDir(t: Table): Dir
    requires Writable(t)
  {
    var n := |t.dirs|;
    Dir([SLASH], DIR_HEADER * n, n, 1,
        seq(MAX_DIRS, i requires 0 <= i < MAX_DIRS => if i == 0 || i < n then RootOffset(t, i) else 0), [])
  }

  function SizeSum(ds: seq<Dir>): nat {
    if ds == [] then 0 else (SizeSum(ds[..|ds| - 1]) + ds[|ds| - 1].size) % U32
  }

  function Image(t: Table): (r: seq<byte>)
    requires Writable(t)
    ensures |r| == DISK_HEADER + DIR_HEADER + DirsLen(t.dirs)
  {
    DiskHeader(SizeSum(t.dirs)) + DirHeader(RootDir(t)) + DirsImage(t.dirs)
  }

  // The size in the disk header counts all files with their headers, but no
  // header of a directory.
  lemma {:induction false} SizeIsFiles(ds: seq<Dir>)
    requires forall i :: 0 <= i < |ds| ==> GoodDir(ds[i])
    ensures SizeSum(ds) == (DirsLen(ds) - DIR_HEADER * |ds|) % U32
  {
    if ds != [] {
      var n := |ds| - 1;
      SizeIsFiles(ds[..n]);
      var x := DirsLen(ds[..n]) - DIR_HEADER * n;
      Wrapped(x, ds[n].size);
    }
  }

  lemma {:induction false} Wrapped(x: int, y: int)
    ensures (x % U32 + y) % U32 == (x + y) % U32
  {
    assert x + y == U32 * (x / U32) + (x % U32 + y);
  }

  // The root directory says where its directories are.
  predicate RootRight(t: Table)
    requires Writable(t)
  {
    forall i {:trigger RootOffset(t, i)} :: 0 <= i < |t.dirs| ==> RootOffset(t, i) == DIR_HEADER + DirsLen(t.dirs[..i])
  }

  // All directories but the last have the size that the writer counts.
  predicate EvenSizes(t: Table)
    requires Writable(t)
  {
    forall i :: 0 <= i < |t.dirs| - 1 ==> t.dirs[i].size == t.dirs[t.dirPtr - 1].size
  }

  lemma {:induction false} DirsLenStep(ds: seq<Dir>, i: nat)
    requires i < |ds|
    ensures DirsLen(ds[..i + 1]) == DirsLen(ds[..i]) + DIR_HEADER + FilesLen(ds[i].files)
  {
    assert ds[..i + 1][..i] == ds[..i];
  }

  lemma {:induction false} GoodSize(t: Table, i: nat)
    requires Good(t) && i < |t.dirs|
    ensures t.dirs[i].size == FilesLen(t.dirs[i].files) < U32
  {
    assert GoodDir(t.dirs[i]);
  }

  // o follows x by a header and z bytes, e follows b by a header and s bytes.
  lemma {:induction false} WrappedSum(o: nat, x: nat, z: nat, b: nat, e: nat, s: nat)
    requires o == (x + DIR_HEADER + z) % U32 && x == DIR_HEADER + b && e == b + DIR_HEADER + s
    requires DIR_HEADER + e < U32 && z < U32
    ensures o == DIR_HEADER + e <==> s == z
  {
  }

  // A right offset is followed by a right one exactly when the size counted is
  // the directory's own.
  lemma {:induction false} RootStep(t: Table, i: nat, j: nat)
    requires Good(t) && Writable(t) && j == i + 1 < |t.dirs| && DIR_HEADER + DirsLen(t.dirs) < U32
    requires RootOffset(t, i) == DIR_HEADER + DirsLen(t.dirs[..i])
    ensures RootOffset(t, j) == DIR_HEADER + DirsLen(t.dirs[..j]) <==> t.dirs[i].size == t.dirs[t.dirPtr - 1].size
  {
    var s, z, b, e := t.dirs[i].size, t.dirs[t.dirPtr - 1].size, DirsLen(t.dirs[..i]), DirsLen(t.dirs[..j]);
    RootLengths(t, i, j);
    RootNext(t, i, j);
    WrappedSum(RootOffset(t, j), RootOffset(t, i), z, b, e, s);
  }

  lemma {:induction false} RootLengths(t: Table, i: nat, j: nat)
    requires Good(t) && Writable(t) && j == i + 1 < |t.dirs| && DIR_HEADER + DirsLen(t.dirs) < U32
    ensures DirsLen(t.dirs[..j]) == DirsLen(t.dirs[..i]) + DIR_HEADER + t.dirs[i].size
    ensures DIR_HEADER + DirsLen(t.dirs[..j]) < U32 && t.dirs[t.dirPtr - 1].size < U32
  {
    DirsLenStep(t.dirs, i);
    DirsLenUpTo(t.dirs, j);
    GoodSize(t, i);
    GoodSize(t, t.dirPtr - 1);
  }

  lemma {:induction false} RootNext(t: Table, i: nat, j: nat)
    requires Writable(t) && j == i + 1 < |t.dirs|
    ensures RootOffset(t, j) == (RootOffset(t, i) + DIR_HEADER + t.dirs[t.dirPtr - 1].size) % U32
  {
  }

  lemma {:induction false} RootOffsetRight(t: Table, i: nat)
    requires Good(t) && Writable(t) && EvenSizes(t) && i < |t.dirs|
    requires DIR_HEADER + DirsLen(t.dirs) < U32
    ensures RootOffset(t, i) == DIR_HEADER + DirsLen(t.dirs[..i])
    decreases t, i
  {
    if i > 0 {
      RootOffsetRight(t, i - 1);
      assert t.dirs[i - 1].size == t.dirs[t.dirPtr - 1].size;
      RootStep(t, i - 1, i);
    }
  }

  // Main result: the offsets in the root directory are right exactly when all
  // directories but the last have the same size as the one before dir_ptr.
  lemma {:induction false} RootExactly(t: Table)
    requires Good(t) && Writable(t) && DIR_HEADER + DirsLen(t.dirs) < U32
    ensures RootRight(t) <==> EvenSizes(t)
  {
    if EvenSizes(t) {
      forall i | 0 <= i < |t.dirs| ensures RootOffset(t, i) == DIR_HEADER + DirsLen(t.dirs[..i]) { RootOffsetRight(t, i); }
    }
    if RootRight(t) {
      forall i | 0 <= i < |t.dirs| - 1 ensures t.dirs[i].size == t.dirs[t.dirPtr - 1].size {
        assert RootOffset(t, i) == DIR_HEADER + DirsLen(t.dirs[..i]);
        assert RootOffset(t, i + 1) == DIR_HEADER + DirsLen(t.dirs[..i + 1]);
        RootStep(t, i, i + 1);
      }
    }
  }

  // ----- Arguments grouped by directory

  // No argument returns to a directory after another one.
  predicate Grouped(args: seq<Arg>) {
    args == [] ||
    var rest, a := args[..|args| - 1], args[|args| - 1];
    Grouped(rest) && (rest == [] || a.dir == rest[|rest| - 1].dir || forall b :: b in rest ==> b.dir != a.dir)
  }

  lemma {:induction false} NoSuchDir(t: Table, args: seq<Arg>, dir: seq<byte>)
    requires Good(t) && StoresExactly(t, args) && forall b :: b in args ==> b.dir != dir
    ensures DirIndex(t.dirs, dir) == |t.dirs|
  {
    var i := DirIndex(t.dirs, dir);
    if i < |t.dirs| {
      FileIsStored(t.dirs, i, 0);
    }
  }

  // dir_ptr is at the latest directory.
  predicate AtLatest(t: Table, dir: seq<byte>) {
    |t.dirs| == t.dirPtr + 1 && t.prevDir == dir
  }

  lemma {:induction false} AddLatest(t: Table, a: Arg)
    requires Good(t) && ArgOk(a) && Coherent(t) && Add(t, a).Some?
    requires DirIndex(t.dirs, a.dir) == |t.dirs| || AtLatest(t, a.dir)
    ensures AtLatest(Add(t, a).value, a.dir)
  {
  }

  lemma {:induction false} GroupedLatest(args: seq<Arg>)
    requires AllOk(args) && Usable(args) && Grouped(args) && args != []
    ensures Build(args).Some? && AtLatest(Build(args).value, args[|args| - 1].dir)
  {
    var rest, a := args[..|args| - 1], args[|args| - 1];
    UsableBefore(args);
    BuildKeeps(rest);
    var t := Build(rest).value;
    AcceptsExactly(t, a);
    if rest != [] { GroupedLatest(rest); }
    if rest == [] || a.dir != rest[|rest| - 1].dir { NoSuchDir(t, rest, a.dir); }
    AddLatest(t, a);
  }

  // Grouped arguments for at most two directories give right root offsets.
  lemma {:induction false} TwoDirectories(args: seq<Arg>)
    requires AllOk(args) && Usable(args) && Grouped(args) && Build(args).Some?
    ensures Writable(Build(args).value)
    ensures |Build(args).value.dirs| <= 2 ==> EvenSizes(Build(args).value)
  {
    BuildKeeps(args);
    if args != [] { GroupedLatest(args); }
    LatestWritable(Build(args).value);
  }

  lemma {:induction false} LatestWritable(t: Table)
    requires Good(t) && (t.dirs == [] || AtLatest(t, t.prevDir))
    ensures Writable(t) && (|t.dirs| <= 2 ==> EvenSizes(t))
  {
    forall i | 0 <= i < |t.dirs| ensures t.dirs[i].numFiles == |t.dirs[i].files| { assert GoodDir(t.dirs[i]); }
  }
}
