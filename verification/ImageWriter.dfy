// The program toolchain/util/mkinitrd.c step by step: parse_path, the argument
// loop over its table, and the image writer.
module ImageWriter {
  import opened Bytes
  import opened InitrdImage
  import opened MkInitrd
  import opened Common

  // ----- parse_path

  // dir stands between the first character and the next slash, and name behind
  // the last slash.
  predicate Splits(path: seq<byte>, dir: seq<byte>, name: seq<byte>) {
    && SLASH !in dir && SLASH !in name
    && 1 + |dir| < |path| && path[1..1 + |dir|] == dir && path[1 + |dir|] == SLASH
    && |name| < |path| && path[|path| - |name|..] == name && path[|path| - |name| - 1] == SLASH
  }

  method ParsePath(path: seq<byte>) returns (dir: seq<byte>, name: seq<byte>)
    requires SLASH in path[if path == [] then 0 else 1..]
    ensures Splits(path, dir, name)
  {
    assert exists k :: 0 <= k < |path[1..]| && path[1..][k] == SLASH;
    ghost var z :| 1 <= z < |path| && path[z] == SLASH;
    var i := |path| - 1;
    while path[i] != SLASH
      invariant z <= i < |path| && SLASH !in path[i + 1..]
      decreases i
    {
      i := i - 1;
    }
    name := path[i + 1..];
    var k := 1;
    dir := [];
    while path[k] != SLASH
      invariant 1 <= k <= z && dir == path[1..k] && SLASH !in dir
      decreases z - k
    {
      dir := dir + [path[k]];
      k := k + 1;
    }
  }

  lemma {:induction false} InWindow(path: seq<byte>, a: nat, d: seq<byte>, k: nat)
    requires a + |d| <= |path| && path[a..a + |d|] == d && k < |d|
    ensures path[a + k] in d
  {
    assert path[a + k] == path[a..a + |d|][k];
  }

  lemma {:induction false} OneDir(path: seq<byte>, d: seq<byte>, e: seq<byte>)
    requires 1 + |d| < |path| && path[1..1 + |d|] == d && SLASH !in d
    requires 1 + |e| < |path| && path[1 + |e|] == SLASH
    ensures |d| <= |e|
  {
    if |e| < |d| { InWindow(path, 1, d, |e|); }
  }

  lemma {:induction false} OneName(path: seq<byte>, d: seq<byte>, e: seq<byte>)
    requires |d| < |path| && path[|path| - |d|..] == d && SLASH !in d
    requires |e| < |path| && path[|path| - |e| - 1] == SLASH
    ensures |d| <= |e|
  {
  }

  // A path splits in one way.
  lemma {:induction false} SplitsOnce(path: seq<byte>, d: seq<byte>, n: seq<byte>, e: seq<byte>, o: seq<byte>)
    requires Splits(path, d, n) && Splits(path, e, o)
    ensures d == e && n == o
  {
    OneDir(path, d, e);
    OneDir(path, e, d);
    OneName(path, n, o);
    OneName(path, o, n);
  }

  // The path of a file in a directory splits into the two.
  lemma {:induction false} SplitsPath(d: seq<byte>, n: seq<byte>)
    requires SLASH !in d && SLASH !in n
    ensures Splits([SLASH] + d + [SLASH] + n, d, n)
  {
    var path := [SLASH] + d + [SLASH] + n;
    assert path[1..1 + |d|] == d && path[|path| - |n|..] == n;
  }

  // ----- main

  lemma {:induction false} FilesImageStep(fs: seq<File>, i: nat)
    requires i < |fs|
    ensures FilesImage(fs[..i + 1]) == FilesImage(fs[..i]) + FileBytes(fs[i])
  {
    assert fs[..i + 1][..i] == fs[..i];
  }

  lemma {:induction false} DirsImageStep(ds: seq<Dir>, i: nat)
    requires i < |ds|
    ensures DirsImage(ds[..i + 1]) == DirsImage(ds[..i]) + DirBytes(ds[i])
    ensures SizeSum(ds[..i + 1]) == (SizeSum(ds[..i]) + ds[i].size) % U32
  {
    assert ds[..i + 1][..i] == ds[..i];
  }

  const NO_DIR: Dir := Dir([], 0, 0, 0, [0, 0, 0, 0, 0], [])

  class Mkinitrd {
    const data: array<Dir>
    var dirCount: nat
    var dirPtr: nat
    var curOffset: nat
    var prevDir: seq<byte>
    // The counter of alloc_inode; the root directory has taken the first.
    var nextInode: nat

    ghost predicate Valid()
      reads this, data
    {
      && data.Length == MAX_DIRS && dirCount <= MAX_DIRS && Coherent(View())
      && (forall i :: dirCount <= i < MAX_DIRS ==> data[i] == NO_DIR)
      && (forall i :: 0 <= i < dirCount ==> |data[i].files| <= MAX_FILES)
    }

    ghost function View(): Table
      requires dirCount <= data.Length
      reads this, data
    {
      Table(data[..dirCount], dirPtr, curOffset, prevDir, nextInode)
    }

    constructor ()
      ensures Valid() && View() == BLANK_TABLE && fresh(data)
    {
      data := new Dir[MAX_DIRS](_ => NO_DIR);
      dirCount, dirPtr, curOffset, prevDir, nextInode := 0, 0, 0, [], 2;
    }

    method FindDir(name: seq<byte>) returns (r: Option<nat>)
      requires Valid() && name != []
      ensures match r
        case Some(i) => i == DirIndex(View().dirs, name) < dirCount
        case None => DirIndex(View().dirs, name) == dirCount
    {
      for i := 0 to MAX_DIRS
        invariant forall j :: 0 <= j < i ==> data[j].name != name
      {
        if data[i].name == name { return Some(i); }
      }
      r := None;
    }

    // Up to the label save_dir_data; false when the program aborts.
    method SelectDir(a: Arg) returns (ok: bool)
      requires Valid() && ArgOk(a)
      modifies this, data
      ensures Valid() && (ok ==> dirPtr < dirCount)
      ensures match Select(old(View()), a)
        case None => !ok && View() == old(View())
        case Some(t) => ok && View() == t
    {
      if a.dir == prevDir { return true; }
      var r := FindDir(a.dir);
      if r.Some? {
        dirPtr := r.value;
        return true;
      }
      if dirCount == MAX_DIRS { return false; }
      dirPtr := dirCount;
      data[dirPtr] := Dir(a.dir, 0, 0, nextInode % U32, [0, 0, 0, 0, 0], []);
      dirCount := dirCount + 1;
      nextInode := nextInode + 1;
      ok := true;
    }

    method Exists(fs: seq<File>, name: seq<byte>) returns (r: bool)
      ensures r <==> HasFile(fs, name)
    {
      for i := 0 to |fs|
        invariant forall j :: 0 <= j < i ==> fs[j].name != name
      {
        if fs[i].name == name { return true; }
      }
      r := false;
    }

    // From save_dir_data on. The size and the number of files are raised before
    // the checks.
    method SaveFile(a: Arg)
      requires Valid() && dirPtr < dirCount && ArgOk(a)
      modifies this`curOffset, this`prevDir, this`nextInode, data
      ensures Valid() && View() == Save(old(View()), a)
    {
      ghost var t := View();
      var d := data[dirPtr];
      var size := |a.content| % U32;
      d := d.(size := (d.size + size + FILE_HEADER) % U32, numFiles := (d.numFiles + 1) % U32);
      var dup := Exists(d.files, a.name);
      if !dup && |d.files| < MAX_FILES {
        var f := |d.files|;
        curOffset := if f == 0 then DIR_HEADER else (curOffset + FILE_HEADER + d.files[f - 1].size) % U32;
        d := d.(offsets := d.offsets[f := curOffset], files := d.files + [File(a.name, size, nextInode % U32, a.content)]);
        nextInode := nextInode + 1;
      }
      data[dirPtr] := d;
      prevDir := a.dir;
      assert data[..dirCount] == t.dirs[dirPtr := d];
    }

    // One turn of the argument loop; false when the program aborts.
    method AddFile(path: seq<byte>, content: seq<byte>, ghost a: Arg) returns (ok: bool)
      requires Valid() && Splits(path, a.dir, a.name) && a.content == content && ArgOk(a)
      modifies this, data
      ensures Valid()
      ensures match Add(old(View()), a)
        case None => !ok && View() == old(View())
        case Some(t) => ok && View() == t
    {
      assert path[1..][|a.dir|] == SLASH;
      var dir, name := ParsePath(path);
      SplitsOnce(path, a.dir, a.name, dir, name);
      ok := SelectDir(Arg(dir, name, content));
      if ok { SaveFile(Arg(dir, name, content)); }
    }

    // The directories with their files, from position 132 of the disk on.
    method WriteDirs(ds: seq<Dir>) returns (disk: seq<byte>, size: nat)
      requires forall i :: 0 <= i < |ds| ==> ds[i].numFiles == |ds[i].files|
      ensures disk == DirsImage(ds) && size == SizeSum(ds)
    {
      disk, size := [], 0;
      for i := 0 to |ds|
        invariant disk == DirsImage(ds[..i]) && size == SizeSum(ds[..i])
      {
        DirsImageStep(ds, i);
        var files := WriteFiles(ds[i]);
        disk := disk + (DirHeader(ds[i]) + files);
        size := (size + ds[i].size) % U32;
      }
      assert ds[..|ds|] == ds;
    }

    method WriteFiles(d: Dir) returns (disk: seq<byte>)
      requires d.numFiles == |d.files|
      ensures disk == FilesImage(d.files)
    {
      disk := [];
      for i := 0 to d.numFiles
        invariant disk == FilesImage(d.files[..i])
      {
        FilesImageStep(d.files, i);
        disk := disk + (FileHeader(d.files[i]) + d.files[i].content);
      }
      assert d.files[..d.numFiles] == d.files;
    }

    method RootOffsets() returns (offsets: Offsets)
      requires Valid() && Writable(View())
      ensures offsets == RootDir(View()).offsets
    {
      offsets := [DIR_HEADER, 0, 0, 0, 0];
      var i := 1;
      while i < dirCount
        invariant i == 1 || 1 < i <= dirCount
        invariant forall j {:trigger offsets[j]} :: 0 <= j < MAX_DIRS ==>
          offsets[j] == if j == 0 || j < i then RootOffset(View(), j) else 0
      {
        offsets := offsets[i := (offsets[i - 1] + DIR_HEADER + data[dirPtr - 1].size) % U32];
        i := i + 1;
      }
    }

    // The writer behind the argument loop.
    method WriteImage() returns (disk: seq<byte>)
      requires Valid() && Writable(View())
      ensures disk == Image(View())
    {
      var dirs, size := WriteDirs(data[..dirCount]);
      var offsets := RootOffsets();
      var root := Dir([SLASH], DIR_HEADER * dirCount, dirCount, 1, offsets, []);
      disk := DiskHeader(size) + DirHeader(root) + dirs;
    }
  }
}
