// The inode numbers that toolchain/util/mkinitrd.c gives out, and that
// src/fs/initramfs.c reads back.
module InodeNumbers {
  import opened Bytes
  import opened Common
  import opened GroupedArguments
  import opened InitrdImage
  import opened InitrdRoundTrip
  import opened Initramfs
  import opened MkInitrd

  // Number of the file of argument k: the root directory has number 1, and each
  // directory takes the number before its first file.
  function FileNumber(args: seq<Arg>, k: nat): nat
    requires k < |args|
  {
    2 + k + Dirs(args[..k + 1])
  }

  // Index of the first argument for a directory, |args| when there is none.
  function FirstFor(args: seq<Arg>, dir: seq<byte>): (k: nat)
    ensures k <= |args|
    ensures k < |args| ==> args[k].dir == dir
    ensures forall j :: 0 <= j < k ==> args[j].dir != dir
  {
    if args == [] then 0 else
      var k := FirstFor(args[..|args| - 1], dir);
      if k < |args| - 1 || args[|args| - 1].dir == dir then k else |args|
  }

  function DirNumber(args: seq<Arg>, dir: seq<byte>): nat
    requires FirstFor(args, dir) < |args|
  {
    FileNumber(args, FirstFor(args, dir)) - 1
  }

  predicate HasFileNumber(ds: seq<Dir>, a: Arg, n: nat) {
    exists i, j :: 0 <= i < |ds| && 0 <= j < |ds[i].files| && NumberAt(ds, i, j, a, n)
  }

  predicate NumberAt(ds: seq<Dir>, i: nat, j: nat, a: Arg, n: nat)
    requires i < |ds| && j < |ds[i].files|
  {
    ds[i].name == a.dir && ds[i].files[j].name == a.name && ds[i].files[j].inode == n % U32
  }

  predicate HasDirNumber(ds: seq<Dir>, dir: seq<byte>, n: nat) {
    exists i :: 0 <= i < |ds| && ds[i].name == dir && ds[i].inode == n % U32
  }

  // One argument takes one number, and another one before it for a directory
  // that is new.
  lemma {:induction false} AddNumbers(t: Table, a: Arg)
    requires Good(t) && ArgOk(a) && Coherent(t) && Accepts(t, a) && Add(t, a).Some?
    ensures var u, fresh_ := Add(t, a).value, DirIndex(t.dirs, a.dir) == |t.dirs|;
      && u.nextInode == t.nextInode + (if fresh_ then 2 else 1)
      && HasFileNumber(u.dirs, a, u.nextInode - 1)
      && (fresh_ ==> HasDirNumber(u.dirs, a.dir, t.nextInode))
      && NumbersKept(t.dirs, u.dirs)
  {
    SelectKeeps(t, a);
    var s, u := Select(t, a).value, Add(t, a).value;
    var i, d := s.dirPtr, s.dirs[s.dirPtr];
    SaveIs(s, a);
    assert u.dirs[i] == Saved(d, a, s.curOffset, s.nextInode);
    assert u.dirs[i].files == d.files + [u.dirs[i].files[|d.files|]];
    assert NumberAt(u.dirs, i, |d.files|, a, u.nextInode - 1);
    NumbersStay(t.dirs, u.dirs, i);
  }

  // An entry that only gets more files keeps its numbers.
  lemma {:induction false} NumbersStay(ds: seq<Dir>, es: seq<Dir>, i: nat)
    requires |ds| <= |es| && forall k :: 0 <= k < |ds| && k != i ==> es[k] == ds[k]
    requires i < |ds| ==> es[i].name == ds[i].name && es[i].inode == ds[i].inode && ds[i].files <= es[i].files
    ensures NumbersKept(ds, es)
  {
    forall b: Arg, n: nat | HasFileNumber(ds, b, n) ensures HasFileNumber(es, b, n) {
      var k, j :| 0 <= k < |ds| && 0 <= j < |ds[k].files| && NumberAt(ds, k, j, b, n);
      assert NumberAt(es, k, j, b, n);
    }
    forall dir: seq<byte>, n: nat | HasDirNumber(ds, dir, n) ensures HasDirNumber(es, dir, n) {
      var k :| 0 <= k < |ds| && ds[k].name == dir && ds[k].inode == n % U32;
      assert es[k].name == dir && es[k].inode == n % U32;
    }
  }

  ghost predicate NumbersKept(ds: seq<Dir>, es: seq<Dir>) {
    && (forall b: Arg, n: nat :: HasFileNumber(ds, b, n) ==> HasFileNumber(es, b, n))
    && (forall dir: seq<byte>, n: nat :: HasDirNumber(ds, dir, n) ==> HasDirNumber(es, dir, n))
  }

  ghost predicate FilesNumbered(ds: seq<Dir>, args: seq<Arg>) {
    forall k :: 0 <= k < |args| ==> FileNumberedAt(ds, args, k)
  }

  ghost predicate FileNumberedAt(ds: seq<Dir>, args: seq<Arg>, k: nat)
    requires k < |args|
  {
    HasFileNumber(ds, args[k], FileNumber(args, k))
  }

  ghost predicate DirsNumbered(ds: seq<Dir>, args: seq<Arg>) {
    forall k :: 0 <= k < |args| ==> DirNumberedAt(ds, args, k)
  }

  ghost predicate DirNumberedAt(ds: seq<Dir>, args: seq<Arg>, k: nat)
    requires k < |args|
  {
    HasDirNumber(ds, args[k].dir, DirNumber(args, args[k].dir))
  }

  // Main result: every file and every directory of the table has the number that
  // follows from the arguments.
  lemma {:induction false} Numbers(args: seq<Arg>)
    requires AllOk(args) && Usable(args)
    ensures Build(args).Some?
    ensures var t := Build(args).value;
      t.nextInode == 2 + |args| + Dirs(args) && FilesNumbered(t.dirs, args) && DirsNumbered(t.dirs, args)
  {
    BuildKeeps(args);
    if args != [] {
      var n := |args| - 1;
      UsableBefore(args);
      BuildKeeps(args[..n]);
      Numbers(args[..n]);
      NextNumbers(Build(args[..n]).value, Build(args).value, args, args[..n], args[n]);
    }
  }

  lemma {:induction false} NextNumbers(t: Table, u: Table, args: seq<Arg>, rest: seq<Arg>, a: Arg)
    requires args != [] && rest == args[..|args| - 1] && a == args[|args| - 1] && ArgOk(a)
    requires Good(t) && StoresExactly(t, rest) && Coherent(t) && Accepts(t, a) && Add(t, a) == Some(u)
    requires t.nextInode == 2 + |rest| + Dirs(rest) && FilesNumbered(t.dirs, rest) && DirsNumbered(t.dirs, rest)
    ensures u.nextInode == 2 + |args| + Dirs(args) && FilesNumbered(u.dirs, args) && DirsNumbered(u.dirs, args)
  {
    AddNumbers(t, a);
    NewExactly(t, rest, a);
    LastNumber(args, rest, a);
    NextFiles(args, rest, a, t.dirs, u.dirs, u.nextInode - 1);
    NextDirs(args, rest, a, t.dirs, u.dirs, t.nextInode);
  }

  lemma {:induction false} LastNumber(args: seq<Arg>, rest: seq<Arg>, a: Arg)
    requires args != [] && rest == args[..|args| - 1] && a == args[|args| - 1]
    ensures Dirs(args) == Dirs(rest) + if KnownDir(rest, a.dir) then 0 else 1
    ensures FileNumber(args, |rest|) == 2 + |rest| + Dirs(args)
  {
    assert args[..|rest| + 1] == args;
  }

  lemma {:induction false} NextFiles(args: seq<Arg>, rest: seq<Arg>, a: Arg, ds: seq<Dir>, es: seq<Dir>, n: nat)
    requires args != [] && rest == args[..|args| - 1] && a == args[|args| - 1]
    requires FilesNumbered(ds, rest) && NumbersKept(ds, es) && HasFileNumber(es, a, n) && n == FileNumber(args, |rest|)
    ensures FilesNumbered(es, args)
  {
    forall k | 0 <= k < |args| ensures FileNumberedAt(es, args, k) {
      if k < |rest| {
        NumberKept(args, rest, k);
        assert FileNumberedAt(ds, rest, k);
      }
    }
  }

  lemma {:induction false} NumberKept(args: seq<Arg>, rest: seq<Arg>, k: nat)
    requires args != [] && rest == args[..|args| - 1] && k < |rest|
    ensures rest[k] == args[k] && FileNumber(args, k) == FileNumber(rest, k)
  {
    assert rest[..k + 1] == args[..k + 1];
  }

  lemma {:induction false} NextDirs(args: seq<Arg>, rest: seq<Arg>, a: Arg, ds: seq<Dir>, es: seq<Dir>, n: nat)
    requires args != [] && rest == args[..|args| - 1] && a == args[|args| - 1]
    requires DirsNumbered(ds, rest) && NumbersKept(ds, es)
    requires n == 2 + |rest| + Dirs(rest) && (!KnownDir(rest, a.dir) ==> HasDirNumber(es, a.dir, n))
    ensures DirsNumbered(es, args)
  {
    forall k | 0 <= k < |args| ensures DirNumberedAt(es, args, k) {
      NextDir(args, rest, a, ds, es, k, n);
    }
  }

  lemma {:induction false} NextDir(args: seq<Arg>, rest: seq<Arg>, a: Arg, ds: seq<Dir>, es: seq<Dir>, k: nat, n: nat)
    requires args != [] && rest == args[..|args| - 1] && a == args[|args| - 1] && k < |args|
    requires DirsNumbered(ds, rest) && NumbersKept(ds, es)
    requires n == 2 + |rest| + Dirs(rest) && (!KnownDir(rest, a.dir) ==> HasDirNumber(es, a.dir, n))
    ensures DirNumberedAt(es, args, k)
  {
    var dir := args[k].dir;
    var f := FirstFor(rest, dir);
    if f < |rest| {
      OldDir(args, rest, dir);
      assert DirNumberedAt(ds, rest, f);
    } else {
      assert k == |rest|;
      NewDir(args, rest, a);
    }
  }

  lemma {:induction false} OldDir(args: seq<Arg>, rest: seq<Arg>, dir: seq<byte>)
    requires args != [] && rest == args[..|args| - 1] && FirstFor(rest, dir) < |rest|
    ensures FirstFor(args, dir) == FirstFor(rest, dir) && DirNumber(args, dir) == DirNumber(rest, dir)
    ensures rest[FirstFor(rest, dir)].dir == dir
  {
    NumberKept(args, rest, FirstFor(rest, dir));
  }

  lemma {:induction false} NewDir(args: seq<Arg>, rest: seq<Arg>, a: Arg)
    requires args != [] && rest == args[..|args| - 1] && a == args[|args| - 1] && FirstFor(rest, a.dir) == |rest|
    ensures FirstFor(args, a.dir) == |rest| && !KnownDir(rest, a.dir)
    ensures DirNumber(args, a.dir) == 2 + |rest| + Dirs(rest)
  {
    NotKnown(rest, a.dir);
    LastNumber(args, rest, a);
  }

  lemma {:induction false} NotKnown(rest: seq<Arg>, dir: seq<byte>)
    requires FirstFor(rest, dir) == |rest|
    ensures !KnownDir(rest, dir)
  {
  }

  // A directory is new in the table exactly when no argument before named it.
  lemma {:induction false} NewExactly(t: Table, rest: seq<Arg>, a: Arg)
    requires Good(t) && StoresExactly(t, rest)
    ensures DirIndex(t.dirs, a.dir) == |t.dirs| <==> !KnownDir(rest, a.dir)
  {
    if KnownDir(rest, a.dir) {
      var b :| b in rest && b.dir == a.dir;
      var i := DirOf(t, rest, b);
    } else {
      NoSuchDir(t, rest, a.dir);
    }
  }

  // No number is given twice, as long as 32 bits suffice.
  lemma {:induction false} NumbersDistinct(args: seq<Arg>, k: nat, l: nat)
    requires k < l < |args|
    ensures 1 < DirNumber(args, args[k].dir) < FileNumber(args, k) < FileNumber(args, l)
    ensures DirNumber(args, args[l].dir) != FileNumber(args, k)
    ensures args[k].dir != args[l].dir ==> DirNumber(args, args[k].dir) != DirNumber(args, args[l].dir)
    ensures FileNumber(args, l) < 2 + |args| + Dirs(args)
  {
    var f, g := FirstFor(args, args[k].dir), FirstFor(args, args[l].dir);
    DirsGrow(args, f, k);
    DirsGrow(args, g, l);
    DirsGrow(args, k, l);
    DirsGrow(args, l, |args| - 1);
    assert args[..|args|] == args;
    if f < g { NewDirGrows(args, f, g); }
    if g < f { NewDirGrows(args, g, f); }
    if k < g { NewDirGrows(args, k, g); } else { DirsGrow(args, g, k); }
  }

  lemma {:induction false} DirsGrow(args: seq<Arg>, k: nat, l: nat)
    requires k <= l < |args|
    ensures Dirs(args[..k + 1]) <= Dirs(args[..l + 1])
  {
    if k < l {
      assert args[..l + 1][..l] == args[..l];
      DirsGrow(args, k, l - 1);
    }
  }

  // The first argument for a directory is one directory more.
  lemma {:induction false} NewDirGrows(args: seq<Arg>, k: nat, l: nat)
    requires k < l < |args| && forall j :: 0 <= j < l ==> args[j].dir != args[l].dir
    ensures Dirs(args[..k + 1]) < Dirs(args[..l + 1])
  {
    assert args[..l + 1][..l] == args[..l] && !KnownDir(args[..l], args[l].dir);
    DirsGrow(args, k, l - 1);
  }

  // ----- Lookup

  // A lookup returns the numbers of the directory and of the file.
  lemma {:induction false} NumbersRead(m: seq<byte>, ram: nat, ds: seq<Dir>, i: nat, j: nat)
    requires Lists(m, RootBase(ram), ds) && i < |ds| && j < |ds[i].files|
    ensures CanLook(m, ram, ds[i].name)
    ensures var d := Lookup(m, Root(ram), ds[i].name); d.Found? && d.node.ino == ds[i].inode
    ensures var r := LookupPath(m, ram, ds[i].name, ds[i].files[j].name);
      r.Found? && (r.node.kind == Regular ==> r.node.ino == ds[i].files[j].inode)
  {
    DirFound(m, ram, ds, i);
    var parent, f := Lookup(m, Root(ram), ds[i].name).node, ds[i].files[j];
    var a := FileAddress(parent.pstart, ds[i], j);
    FindsFile(m, parent.pstart, ds[i], j);
    LookupHits(m, parent, f.name, FileHit(m, a, a - parent.pstart, f));
  }

  // Main result: a file of an ordinary list is found with its number.
  lemma {:induction false} OrdinaryNumbers(m: seq<byte>, ram: nat, args: seq<Arg>, k: nat)
    requires Ordinary(args) && EvenDirs(args) && HoldsImage(m, ram, args) && k < |args|
    ensures CanLook(m, ram, args[k].dir)
    ensures var d := Lookup(m, Root(ram), args[k].dir); d.Found? && d.node.ino == DirNumber(args, args[k].dir)
    ensures var r := LookupPath(m, ram, args[k].dir, args[k].name);
      r.Found? && (r.node.kind == Regular ==> r.node.ino == FileNumber(args, k))
  {
    OrdinaryLoaded(m, ram, args);
    LoadedTable(m, ram, args);
    OrdinaryUsable(args);
    Numbers(args);
    var t := Build(args).value;
    RootLists(m, ram, t);
    FewArguments(args);
    assert FileNumberedAt(t.dirs, args, k) && DirNumberedAt(t.dirs, args, k);
    ReadNumber(m, ram, t, args, k);
  }

  lemma {:induction false} ReadNumber(m: seq<byte>, ram: nat, t: Table, args: seq<Arg>, k: nat)
    requires Good(t) && Lists(m, RootBase(ram), t.dirs) && k < |args| && 2 + |args| + Dirs(args) <= U32
    requires HasFileNumber(t.dirs, args[k], FileNumber(args, k))
    requires HasDirNumber(t.dirs, args[k].dir, DirNumber(args, args[k].dir))
    ensures CanLook(m, ram, args[k].dir)
    ensures var d := Lookup(m, Root(ram), args[k].dir); d.Found? && d.node.ino == DirNumber(args, args[k].dir)
    ensures var r := LookupPath(m, ram, args[k].dir, args[k].name);
      r.Found? && (r.node.kind == Regular ==> r.node.ino == FileNumber(args, k))
  {
    NumberBound(args, k);
    var i, j := Located(t, args[k], FileNumber(args, k), DirNumber(args, args[k].dir));
    NumbersRead(m, ram, t.dirs, i, j);
  }

  lemma {:induction false} Located(t: Table, a: Arg, n: nat, d: nat) returns (i: nat, j: nat)
    requires Good(t) && n < U32 && d < U32 && HasFileNumber(t.dirs, a, n) && HasDirNumber(t.dirs, a.dir, d)
    ensures i < |t.dirs| && j < |t.dirs[i].files|
    ensures t.dirs[i].name == a.dir && t.dirs[i].inode == d
    ensures t.dirs[i].files[j].name == a.name && t.dirs[i].files[j].inode == n
  {
    i, j :| 0 <= i < |t.dirs| && 0 <= j < |t.dirs[i].files| && NumberAt(t.dirs, i, j, a, n);
    var l :| 0 <= l < |t.dirs| && t.dirs[l].name == a.dir && t.dirs[l].inode == d % U32;
    assert l == i;
  }

  lemma {:induction false} NumberBound(args: seq<Arg>, k: nat)
    requires k < |args|
    ensures DirNumber(args, args[k].dir) < FileNumber(args, k) < 2 + |args| + Dirs(args)
  {
    DirsGrow(args, k, |args| - 1);
    DirsGrow(args, FirstFor(args, args[k].dir), k);
    assert args[..|args|] == args;
  }

  lemma {:induction false} FewArguments(args: seq<Arg>)
    requires Ordinary(args)
    ensures 2 + |args| + Dirs(args) <= U32
  {
    LenBound(args);
  }

  lemma {:induction false} LenBound(args: seq<Arg>)
    ensures |args| * FILE_HEADER <= TotalLen(args)
  {
    if args != [] { LenBound(args[..|args| - 1]); }
  }
}
