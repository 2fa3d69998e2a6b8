// Arguments that a user would give to toolchain/util/mkinitrd.c: grouped by
// directory, without repetitions and within its limits. All conditions here can
// be read off the arguments.
module GroupedArguments {
  import opened Bytes
  import Common
  import opened InitrdImage
  import opened Initramfs
  import opened InitrdRoundTrip
  import opened KernelUtil
  import opened MkInitrd

  // Number of files for a directory, and the bytes that they take.
  function FilesIn(args: seq<Arg>, dir: seq<byte>): nat {
    if args == [] then 0 else
      FilesIn(args[..|args| - 1], dir) + if args[|args| - 1].dir == dir then 1 else 0
  }

  function BytesIn(args: seq<Arg>, dir: seq<byte>): nat {
    if args == [] then 0 else
      var a := args[|args| - 1];
      BytesIn(args[..|args| - 1], dir) + if a.dir == dir then FILE_HEADER + |a.content| else 0
  }

  predicate KnownDir(args: seq<Arg>, dir: seq<byte>) {
    exists b :: b in args && b.dir == dir
  }

  // Number of directories.
  function Dirs(args: seq<Arg>): nat {
    if args == [] then 0 else
      var rest := args[..|args| - 1];
      Dirs(rest) + if KnownDir(rest, args[|args| - 1].dir) then 0 else 1
  }

  // Bytes of the image behind the disk header.
  function TotalLen(args: seq<Arg>): nat {
    if args == [] then DIR_HEADER else
      var rest, a := args[..|args| - 1], args[|args| - 1];
      TotalLen(rest) + (if KnownDir(rest, a.dir) then 0 else DIR_HEADER) + FILE_HEADER + |a.content|
  }

  predicate DistinctFiles(args: seq<Arg>) {
    forall i, j :: 0 <= i < j < |args| ==> args[i].dir != args[j].dir || args[i].name != args[j].name
  }

  predicate FewFiles(args: seq<Arg>) {
    forall a :: a in args ==> FilesIn(args, a.dir) <= MAX_FILES
  }

  predicate Ordinary(args: seq<Arg>) {
    && AllOk(args) && Grouped(args) && DistinctFiles(args) && FewFiles(args)
    && Dirs(args) <= MAX_DIRS && TotalLen(args) < U32
  }

  lemma {:induction false} OrdinaryBefore(args: seq<Arg>)
    requires args != [] && Ordinary(args)
    ensures Ordinary(args[..|args| - 1])
  {
    var rest := args[..|args| - 1];
    forall a | a in rest ensures FilesIn(rest, a.dir) <= MAX_FILES { assert a in args; }
  }

  // The table has one directory for each of the arguments', with as many files
  // and bytes, and is at the latest.
  ghost predicate Tracks(t: Table, args: seq<Arg>) {
    && |t.dirs| == Dirs(args) && DIR_HEADER + DirsLen(t.dirs) == TotalLen(args)
    && (args != [] ==> AtLatest(t, args[|args| - 1].dir))
    && forall i :: 0 <= i < |t.dirs| ==> TracksDir(t.dirs[i], args)
  }

  ghost predicate TracksDir(d: Dir, args: seq<Arg>) {
    |d.files| == FilesIn(args, d.name) && FilesLen(d.files) == BytesIn(args, d.name)
  }

  // The next argument of an ordinary list is accepted.
  lemma {:induction false} OrdinaryAccepts(args: seq<Arg>, rest: seq<Arg>, a: Arg, t: Table)
    requires args == rest + [a] && Ordinary(args) && Good(t) && StoresExactly(t, rest) && Tracks(t, rest)
    ensures Accepts(t, a)
    ensures KnownDir(rest, a.dir) <==> AtLatest(t, a.dir) && rest != []
    ensures !KnownDir(rest, a.dir) ==> DirIndex(t.dirs, a.dir) == |t.dirs|
  {
    assert rest == args[..|args| - 1] && a in args;
    if KnownDir(rest, a.dir) {
      LatestAccepts(args, rest, a, t);
    } else {
      NoSuchDir(t, rest, a.dir);
      if rest != [] { assert rest[|rest| - 1] in rest; }
    }
  }

  lemma {:induction false} LatestAccepts(args: seq<Arg>, rest: seq<Arg>, a: Arg, t: Table)
    requires args == rest + [a] && Ordinary(args) && Good(t) && StoresExactly(t, rest) && Tracks(t, rest)
    requires KnownDir(rest, a.dir)
    ensures Accepts(t, a) && AtLatest(t, a.dir) && rest != []
  {
    assert rest == args[..|args| - 1] && a in args;
    var i := t.dirPtr;
    assert t.dirs[i].name == a.dir && DirIndex(t.dirs, a.dir) == i;
    assert TracksDir(t.dirs[i], rest);
    assert FilesIn(args, a.dir) == FilesIn(rest, a.dir) + 1;
    DirsLenUpTo(t.dirs, i);
    NewName(args, rest, a, t, i);
  }

  lemma {:induction false} NewName(args: seq<Arg>, rest: seq<Arg>, a: Arg, t: Table, i: nat)
    requires args == rest + [a] && DistinctFiles(args) && StoresExactly(t, rest) && i < |t.dirs| && t.dirs[i].name == a.dir
    ensures !HasFile(t.dirs[i].files, a.name)
  {
    forall b | b in rest ensures b.dir != a.dir || b.name != a.name {
      var k :| 0 <= k < |rest| && rest[k] == b;
      assert args[k] == b && args[|rest|] == a;
    }
    NotStored(t, rest, i, a.name);
  }

  // Only the latest directory changes, or a new one is added.
  lemma {:induction false} AddTracks(args: seq<Arg>, rest: seq<Arg>, a: Arg, t: Table)
    requires args == rest + [a] && Ordinary(args) && Good(t) && StoresExactly(t, rest) && Tracks(t, rest)
    requires Coherent(t) && Add(t, a).Some?
    ensures Tracks(Add(t, a).value, args)
  {
    OrdinaryAccepts(args, rest, a, t);
    AddLatest(t, a);
    var s, u := Select(t, a).value, Add(t, a).value;
    AddExtends(args, rest, a, t);
    TrackLen(args, rest, a, t, s, u);
    forall i | 0 <= i < |u.dirs| ensures TracksDir(u.dirs[i], args) { TrackDir(args, rest, a, t, s, u, i); }
  }

  lemma {:induction false} AddExtends(args: seq<Arg>, rest: seq<Arg>, a: Arg, t: Table)
    requires args == rest + [a] && ArgOk(a) && Good(t) && Coherent(t) && Accepts(t, a) && Add(t, a).Some? && Tracks(t, rest)
    requires KnownDir(rest, a.dir) ==> AtLatest(t, a.dir)
    requires !KnownDir(rest, a.dir) ==> DirIndex(t.dirs, a.dir) == |t.dirs|
    ensures Extends(args, rest, a, t, Select(t, a).value, Add(t, a).value)
  {
    SelectKeeps(t, a);
    var s, u := Select(t, a).value, Add(t, a).value;
    SelectLast(t, a, KnownDir(rest, a.dir));
    SaveIs(s, a);
    var n := |s.dirs| - 1;
    SavedMore(s.dirs[n], a, s.curOffset, s.nextInode);
    if !KnownDir(rest, a.dir) { NoneIn(rest, a.dir); }
  }

  lemma {:induction false} SelectLast(t: Table, a: Arg, known: bool)
    requires Good(t) && ArgOk(a) && Select(t, a).Some?
    requires if known then AtLatest(t, a.dir) else DirIndex(t.dirs, a.dir) == |t.dirs|
    ensures var s := Select(t, a).value;
      && s.dirPtr + 1 == |s.dirs|
      && if known then s.dirs == t.dirs
         else |s.dirs| == |t.dirs| + 1 && s.dirs[..|t.dirs|] == t.dirs && s.dirs[|t.dirs|].files == []
  {
  }

  lemma {:induction false} SavedMore(d: Dir, a: Arg, curOffset: nat, inode: nat)
    requires Room(d, a, curOffset)
    ensures var e := Saved(d, a, curOffset, inode);
      && e.name == d.name && |e.files| == |d.files| + 1
      && FilesLen(e.files) == FilesLen(d.files) + FILE_HEADER + |a.content|
  {
    FilesLenAppend(d.files, Saved(d, a, curOffset, inode).files[|d.files|]);
  }

  // What Add does to the directories, with the directory selected in s.
  ghost predicate Extends(args: seq<Arg>, rest: seq<Arg>, a: Arg, t: Table, s: Table, u: Table) {
    && args == rest + [a] && Tracks(t, rest) && s.dirs != [] && |u.dirs| == |s.dirs|
    && (if KnownDir(rest, a.dir) then s.dirs == t.dirs
        else |s.dirs| == |t.dirs| + 1 && s.dirs[..|t.dirs|] == t.dirs && s.dirs[|t.dirs|].files == [])
    && (var n := |s.dirs| - 1;
        && u.dirs[..n] == s.dirs[..n] && u.dirs[n].name == s.dirs[n].name == a.dir
        && |u.dirs[n].files| == |s.dirs[n].files| + 1
        && FilesLen(u.dirs[n].files) == FilesLen(s.dirs[n].files) + FILE_HEADER + |a.content|)
    && (forall i, j :: 0 <= i < j < |s.dirs| ==> s.dirs[i].name != s.dirs[j].name)
    && (KnownDir(rest, a.dir) || (FilesIn(rest, a.dir) == 0 && BytesIn(rest, a.dir) == 0))
  }

  lemma {:induction false} NoneIn(args: seq<Arg>, dir: seq<byte>)
    requires !KnownDir(args, dir)
    ensures FilesIn(args, dir) == 0 && BytesIn(args, dir) == 0
  {
    if args != [] {
      assert args[|args| - 1] in args;
      NoneIn(args[..|args| - 1], dir);
    }
  }

  lemma {:induction false} TrackLen(args: seq<Arg>, rest: seq<Arg>, a: Arg, t: Table, s: Table, u: Table)
    requires Extends(args, rest, a, t, s, u)
    ensures |u.dirs| == Dirs(args) && DIR_HEADER + DirsLen(u.dirs) == TotalLen(args)
  {
    var n := |s.dirs| - 1;
    assert args[..|args| - 1] == rest;
    assert DirsLen(u.dirs) == DirsLen(u.dirs[..n]) + DIR_HEADER + FilesLen(u.dirs[n].files);
    assert DirsLen(s.dirs) == DirsLen(s.dirs[..n]) + DIR_HEADER + FilesLen(s.dirs[n].files);
  }

  lemma {:induction false} TrackDir(args: seq<Arg>, rest: seq<Arg>, a: Arg, t: Table, s: Table, u: Table, i: nat)
    requires Extends(args, rest, a, t, s, u) && i < |u.dirs|
    ensures TracksDir(u.dirs[i], args)
  {
    var n := |s.dirs| - 1;
    assert args[..|args| - 1] == rest;
    if i < n {
      assert u.dirs[i] == u.dirs[..n][i] && s.dirs[i] == s.dirs[..n][i];
      assert s.dirs[i] == t.dirs[i] by { if s.dirs != t.dirs { assert s.dirs[i] == s.dirs[..|t.dirs|][i]; } }
      assert TracksDir(t.dirs[i], rest);
    } else if KnownDir(rest, a.dir) {
      assert TracksDir(t.dirs[n], rest);
    }
  }

  // Main result: ordinary arguments are usable.
  lemma {:induction false} OrdinaryUsable(args: seq<Arg>)
    requires Ordinary(args)
    ensures Usable(args) && Build(args).Some? && Good(Build(args).value)
    ensures StoresExactly(Build(args).value, args) && Tracks(Build(args).value, args)
  {
    if args != [] {
      var rest, a := args[..|args| - 1], args[|args| - 1];
      OrdinaryBefore(args);
      OrdinaryUsable(rest);
      OrdinaryStep(args, rest, a);
    }
    BuildKeeps(args);
  }

  lemma {:induction false} OrdinaryStep(args: seq<Arg>, rest: seq<Arg>, a: Arg)
    requires args == rest + [a] && Ordinary(args) && AllOk(rest) && Usable(rest) && Build(rest).Some?
    requires Good(Build(rest).value) && StoresExactly(Build(rest).value, rest) && Tracks(Build(rest).value, rest)
    ensures Usable(args) && Build(args).Some? && Tracks(Build(args).value, args)
  {
    var t := Build(rest).value;
    assert args[..|args| - 1] == rest && a in args;
    OrdinaryAccepts(args, rest, a, t);
    AcceptsExactly(t, a);
    AddTracks(args, rest, a, t);
  }

  // ----- The sizes of the directories

  // All directories but the last take the same number of bytes.
  predicate EvenDirs(args: seq<Arg>) {
    forall a, b :: a in args && b in args && a.dir != args[|args| - 1].dir && b.dir != args[|args| - 1].dir ==>
      BytesIn(args, a.dir) == BytesIn(args, b.dir)
  }

  lemma {:induction false} OrdinaryWritable(args: seq<Arg>)
    requires Ordinary(args)
    ensures Build(args).Some? && Writable(Build(args).value)
  {
    OrdinaryUsable(args);
    TwoDirectories(args);
  }

  lemma {:induction false} DirOf(t: Table, args: seq<Arg>, a: Arg) returns (i: nat)
    requires StoresExactly(t, args) && a in args
    ensures i < |t.dirs| && t.dirs[i].name == a.dir
  {
    assert Stored(t.dirs, a);
    i :| 0 <= i < |t.dirs| && t.dirs[i].name == a.dir && FileStored(t.dirs[i].files, a);
  }

  lemma {:induction false} ArgOf(t: Table, args: seq<Arg>, i: nat) returns (a: Arg)
    requires Good(t) && StoresExactly(t, args) && i < |t.dirs|
    ensures a in args && a.dir == t.dirs[i].name
  {
    FileIsStored(t.dirs, i, 0);
    a := Arg(t.dirs[i].name, t.dirs[i].files[0].name, t.dirs[i].files[0].content);
  }

  lemma {:induction false} SizeOf(t: Table, args: seq<Arg>, i: nat)
    requires Good(t) && Tracks(t, args) && i < |t.dirs|
    ensures t.dirs[i].size == BytesIn(args, t.dirs[i].name)
  {
    assert GoodDir(t.dirs[i]) && TracksDir(t.dirs[i], args);
  }

  // The root offsets are right exactly when the directories are even.
  lemma {:induction false} EvenExactly(args: seq<Arg>)
    requires Ordinary(args)
    ensures Build(args).Some? && Writable(Build(args).value)
    ensures EvenSizes(Build(args).value) <==> EvenDirs(args)
  {
    OrdinaryUsable(args);
    OrdinaryWritable(args);
    var t := Build(args).value;
    if EvenSizes(t) {
      forall a, b | a in args && b in args && a.dir != args[|args| - 1].dir && b.dir != args[|args| - 1].dir
        ensures BytesIn(args, a.dir) == BytesIn(args, b.dir)
      {
        EvenBytes(t, args, a);
        EvenBytes(t, args, b);
      }
    }
    if EvenDirs(args) {
      forall i | 0 <= i < |t.dirs| - 1 ensures t.dirs[i].size == t.dirs[t.dirPtr - 1].size { EvenAt(t, args, i); }
    }
  }

  lemma {:induction false} EvenBytes(t: Table, args: seq<Arg>, a: Arg)
    requires Good(t) && Writable(t) && StoresExactly(t, args) && Tracks(t, args) && EvenSizes(t)
    requires a in args && a.dir != args[|args| - 1].dir
    ensures t.dirPtr > 0 && BytesIn(args, a.dir) == t.dirs[t.dirPtr - 1].size
  {
    var i := DirOf(t, args, a);
    SizeOf(t, args, i);
    assert i < |t.dirs| - 1;
  }

  lemma {:induction false} EvenAt(t: Table, args: seq<Arg>, i: nat)
    requires Good(t) && Writable(t) && StoresExactly(t, args) && Tracks(t, args) && EvenDirs(args) && i < |t.dirs| - 1
    ensures t.dirs[i].size == t.dirs[t.dirPtr - 1].size
  {
    var k, n := t.dirPtr - 1, |t.dirs| - 1;
    assert args != [] && t.dirs[n].name == args[|args| - 1].dir;
    var a := ArgOf(t, args, i);
    var b := ArgOf(t, args, k);
    SizeOf(t, args, i);
    SizeOf(t, args, k);
  }

  lemma {:induction false} TwoDirsAreEven(args: seq<Arg>)
    requires Ordinary(args) && Dirs(args) <= 2
    ensures EvenDirs(args)
  {
    OrdinaryUsable(args);
    TwoDirectories(args);
    EvenExactly(args);
  }

  // ----- Arguments that return to the first directory

  predicate ReturnsToFirst(args: seq<Arg>)
    requires args != []
  {
    args[|args| - 1].dir == args[0].dir && exists b :: b in args && b.dir != args[0].dir
  }

  // The writer reads the directory before the first exactly when the arguments
  // leave their first directory and end in it.
  lemma {:induction false} WritableExactly(args: seq<Arg>)
    requires AllOk(args) && Usable(args) && args != []
    ensures Build(args).Some? && (Writable(Build(args).value) <==> !ReturnsToFirst(args))
  {
    BuildKeeps(args);
    FirstAndLast(args);
    var t := Build(args).value;
    if |t.dirs| >= 2 {
      var b := ArgOf(t, args, 1);
      assert b.dir != t.dirs[0].name;
    }
    if ReturnsToFirst(args) {
      var b :| b in args && b.dir != args[0].dir;
      var i := DirOf(t, args, b);
      assert t.dirPtr == 0;
    }
  }

  lemma {:induction false} FirstAndLast(args: seq<Arg>)
    requires AllOk(args) && Usable(args) && args != []
    ensures Build(args).Some?
    ensures var t := Build(args).value;
      t.dirs != [] && t.dirs[0].name == args[0].dir && t.prevDir == args[|args| - 1].dir
  {
    BuildKeeps(args);
    var rest, a := args[..|args| - 1], args[|args| - 1];
    UsableBefore(args);
    AddNames(Build(rest).value, a);
    if rest != [] { FirstAndLast(rest); }
  }

  lemma {:induction false} AddNames(t: Table, a: Arg)
    requires Coherent(t) && ArgOk(a) && Add(t, a).Some?
    ensures var u := Add(t, a).value;
      u.prevDir == a.dir && u.dirs != [] && (t.dirs != [] ==> u.dirs[0].name == t.dirs[0].name)
    ensures t.dirs == [] && t.prevDir == [] ==> Add(t, a).value.dirs[0].name == a.dir
  {
  }

  // ----- The round trip

  // The image that the writer makes of the arguments.
  function ImageOf(args: seq<Arg>): (image: seq<byte>)
    requires Ordinary(args)
    ensures |image| == DISK_HEADER + TotalLen(args)
  {
    OrdinaryUsable(args);
    OrdinaryWritable(args);
    Image(Build(args).value)
  }

  // Memory holds the image, and four readable bytes behind it.
  predicate HoldsImage(m: seq<byte>, ram: nat, args: seq<Arg>)
    requires Ordinary(args)
  {
    Holds(m, ram, ImageOf(args)) && ram + |ImageOf(args)| + 4 <= |m|
  }

  lemma {:induction false} OrdinaryLoaded(m: seq<byte>, ram: nat, args: seq<Arg>)
    requires Ordinary(args) && EvenDirs(args) && HoldsImage(m, ram, args)
    ensures LoadedFrom(m, ram, args)
  {
    OrdinaryUsable(args);
    OrdinaryWritable(args);
    EvenExactly(args);
  }

  // Main result: every file given in an ordinary list with even directories is
  // found under its name, with its size and its bytes; as a file exactly when
  // the four bytes behind its header are not the directory magic.
  lemma {:induction false} OrdinaryRoundTrip(m: seq<byte>, ram: nat, args: seq<Arg>, a: Arg)
    requires Ordinary(args) && EvenDirs(args) && HoldsImage(m, ram, args) && a in args
    ensures CanLook(m, ram, a.dir)
    ensures var r := LookupPath(m, ram, a.dir, a.name); r.Found? && IsFileNode(m, r.node, a.content)
  {
    OrdinaryLoaded(m, ram, args);
    RoundTrip(m, ram, args, a);
  }

  // Main result: and a name that is not in the list is not found.
  lemma {:induction false} OrdinaryNeverWritten(m: seq<byte>, ram: nat, args: seq<Arg>, dir: seq<byte>, name: seq<byte>)
    requires Ordinary(args) && EvenDirs(args) && HoldsImage(m, ram, args)
    requires forall a :: a in args ==> a.dir != dir || a.name != name
    ensures CanLook(m, ram, dir) && LookupPath(m, ram, dir, name) == Failed(Common.ENOENT)
  {
    OrdinaryLoaded(m, ram, args);
    NeverWritten(m, ram, args, dir, name);
  }

  // Main result: a file given to the writer is looked up, opened and read. Where
  // it is found as a file, the read returns what ReadResult says, and when it
  // returns its count the bytes are those of the content.
  method ReadBack(m: array<byte>, ram: nat, ghost args: seq<Arg>, a: Arg, p: nat, count: nat, buf: array<byte>)
    returns (r: int)
    requires Ordinary(args) && EvenDirs(args) && HoldsImage(m[..], ram, args) && a in args
    requires OffT(p + count) && buf != m && count <= buf.Length
    modifies buf
    ensures CanLook(old(m[..]), ram, a.dir)
    ensures var n := LookupPath(old(m[..]), ram, a.dir, a.name);
      n.Found? && r == if n.node.kind == Regular then ReadResult(a.content, p, count) else -Common.EINVAL
    ensures buf[..] == if r >= 0 then a.content[p..p + count] + old(buf[..])[count..] else old(buf[..])
  {
    OrdinaryRoundTrip(m[..], ram, args, a);
    ContentLen(args, a);
    r := ReadPath(m, ram, a.dir, a.name, a.content, p, count, buf);
  }

  lemma {:induction false} ContentLen(args: seq<Arg>, a: Arg)
    requires a in args
    ensures |a.content| <= TotalLen(args)
  {
    if args[|args| - 1] != a { ContentLen(args[..|args| - 1], a); }
  }

  // A single file of 2^31 bytes or more can be written and is found, but no read
  // of it succeeds.
  lemma {:induction false} LongFile(a: Arg, p: nat, count: nat)
    requires ArgOk(a) && 0x8000_0000 <= |a.content| && 2 * DIR_HEADER + FILE_HEADER + |a.content| < U32
    ensures Ordinary([a]) && EvenDirs([a]) && ReadResult(a.content, p, count) < 0
  {
    assert [a][..0] == [];
    assert !KnownDir([], a.dir);
    assert FilesIn([], a.dir) == 0 && Dirs([]) == 0 && TotalLen([]) == DIR_HEADER;
    assert FilesIn([a], a.dir) == 1;
  }
}
