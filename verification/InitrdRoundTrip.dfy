// What src/fs/initramfs.c reads from memory is what toolchain/util/mkinitrd.c
// was given.
module InitrdRoundTrip {
  import opened Bytes
  import opened KernelUtil
  import opened InitrdImage
  import opened MkInitrd
  import opened Initramfs
  import opened Common

  // ----- One header

  // What a lookup makes of the file header at address a. The reader tries the
  // longer directory header first, whose magic lies behind the file header.
  function FileHit(m: seq<byte>, a: nat, offset: nat, f: File): Hit
    requires a + FILE_HEADER + 4 <= |m|
  {
    if Word(m, a + FILE_HEADER) == DIR_MAGIC then Hit(offset, Directory, FILE_MAGIC, f.size)
    else Hit(offset, Regular, f.inode, f.size)
  }

  lemma {:induction false} NameAt(m: seq<byte>, a: nat, s: seq<byte>, name: seq<byte>)
    requires IsString(m, a, s)
    ensures Terminated(m, a) && (IsString(m, a, name) <==> name == s)
  {
    assert m[a + |s|] == 0;
    if IsString(m, a, name) { OneString(m, a, s, name); }
  }

  lemma {:induction false} FileMatches(m: seq<byte>, a: nat, offset: nat, f: File, name: seq<byte>)
    requires Holds(m, a, FileBytes(f)) && GoodFile(f) && f.size < U32 && a + FILE_HEADER + 4 <= |m|
    ensures ReadableEntry(m, a)
    ensures Match(m, a, offset, name) == if name == f.name then Some(FileHit(m, a, offset, f)) else None
  {
    HoldsBoth(m, a, FileHeader(f), f.content);
    FileHeaderReads(m, a, f);
    NameAt(m, a, f.name, name);
  }

  lemma {:induction false} DirMatches(m: seq<byte>, a: nat, offset: nat, d: Dir, name: seq<byte>)
    requires Holds(m, a, DirBytes(d)) && GoodDir(d)
    ensures ReadableEntry(m, a)
    ensures Match(m, a, offset, name) == if name == d.name then Some(Hit(offset, Directory, d.inode, d.size)) else None
  {
    HoldsBoth(m, a, DirHeader(d), FilesImage(d.files));
    DirHeaderReads(m, a, d);
    NameAt(m, a, d.name, name);
  }

  // ----- The search

  function MatchAt(m: seq<byte>, base: nat, name: seq<byte>, i: nat): Option<Hit>
    requires Readable(m, base) && i < NumFiles(m, base)
  {
    Match(m, base + OffsetAt(m, base, i), OffsetAt(m, base, i), name)
  }

  lemma {:induction false} FirstHitAt(m: seq<byte>, base: nat, name: seq<byte>, i: nat, k: nat)
    requires Readable(m, base) && i <= k < NumFiles(m, base)
    requires MatchAt(m, base, name, k).Some?
    requires forall j :: i <= j < k ==> MatchAt(m, base, name, j) == None
    ensures FirstHit(m, base, name, i) == MatchAt(m, base, name, k)
    decreases k - i
  {
    if i < k {
      assert MatchAt(m, base, name, i) == None;
      FirstHitAt(m, base, name, i + 1, k);
    }
  }

  lemma {:induction false} NoHit(m: seq<byte>, base: nat, name: seq<byte>, i: nat)
    requires Readable(m, base)
    requires forall j :: i <= j < NumFiles(m, base) ==> MatchAt(m, base, name, j) == None
    ensures FirstHit(m, base, name, i) == None
    decreases NumFiles(m, base) - i
  {
    if i < NumFiles(m, base) {
      assert MatchAt(m, base, name, i) == None;
      NoHit(m, base, name, i + 1);
    }
  }

  // ----- A directory of files

  // Directory d stands at base, with the four bytes behind it readable.
  predicate DirIn(m: seq<byte>, base: nat, d: Dir) {
    GoodDir(d) && Holds(m, base, DirBytes(d)) && base + DIR_HEADER + FilesLen(d.files) + 4 <= |m|
  }

  function FileAddress(base: nat, d: Dir, i: nat): nat
    requires i <= |d.files|
  {
    base + DIR_HEADER + FilesLen(d.files[..i])
  }

  lemma {:induction false} FileIn(m: seq<byte>, base: nat, d: Dir, i: nat)
    requires DirIn(m, base, d) && i < |d.files|
    ensures Holds(m, FileAddress(base, d, i), FileBytes(d.files[i]))
    ensures FileAddress(base, d, i) + FILE_HEADER + 4 <= |m|
    ensures GoodFile(d.files[i]) && d.files[i].size < U32
    ensures base + DIR_HEADER <= |m| && OffsetAt(m, base, i) == DIR_HEADER + FilesLen(d.files[..i])
  {
    HoldsBoth(m, base, DirHeader(d), FilesImage(d.files));
    FileAt(m, base + DIR_HEADER, d.files, i);
    FilesLenUpTo(d.files, i);
    assert GoodFile(d.files[i]) && OffsetRight(d, i);
    OffsetReads(m, base, d, i);
  }

  lemma {:induction false} DirReadable(m: seq<byte>, base: nat, d: Dir)
    requires DirIn(m, base, d)
    ensures Readable(m, base) && NumFiles(m, base) == |d.files|
  {
    HoldsBoth(m, base, DirHeader(d), FilesImage(d.files));
    DirHeaderReads(m, base, d);
    forall i | 0 <= i < |d.files| ensures ReadableEntry(m, base + OffsetAt(m, base, i)) { FileReadable(m, base, d, i); }
  }

  lemma {:induction false} FileReadable(m: seq<byte>, base: nat, d: Dir, i: nat)
    requires DirIn(m, base, d) && i < |d.files|
    ensures base + DIR_HEADER <= |m| && ReadableEntry(m, base + OffsetAt(m, base, i))
  {
    FileIn(m, base, d, i);
    FileMatches(m, FileAddress(base, d, i), 0, d.files[i], []);
  }

  lemma {:induction false} FileMatchAt(m: seq<byte>, base: nat, d: Dir, name: seq<byte>, i: nat)
    requires DirIn(m, base, d) && Readable(m, base) && NumFiles(m, base) == |d.files| && i < |d.files|
    ensures FileAddress(base, d, i) + FILE_HEADER + 4 <= |m|
    ensures MatchAt(m, base, name, i) ==
      if name == d.files[i].name then
        Some(FileHit(m, FileAddress(base, d, i), FileAddress(base, d, i) - base, d.files[i]))
      else None
  {
    FileIn(m, base, d, i);
    FileMatches(m, FileAddress(base, d, i), OffsetAt(m, base, i), d.files[i], name);
  }

  lemma {:induction false} FindsFile(m: seq<byte>, base: nat, d: Dir, i: nat)
    requires DirIn(m, base, d) && i < |d.files|
    ensures Readable(m, base) && FileAddress(base, d, i) + FILE_HEADER + 4 <= |m|
    ensures FirstHit(m, base, d.files[i].name, 0) ==
      Some(FileHit(m, FileAddress(base, d, i), FileAddress(base, d, i) - base, d.files[i]))
    ensures Holds(m, FileAddress(base, d, i) + FILE_HEADER, d.files[i].content)
  {
    DirReadable(m, base, d);
    var name := d.files[i].name;
    forall j | 0 <= j < i ensures MatchAt(m, base, name, j) == None { FileMatchAt(m, base, d, name, j); }
    FileMatchAt(m, base, d, name, i);
    FirstHitAt(m, base, name, 0, i);
    ContentIn(m, base, d, i);
  }

  lemma {:induction false} ContentIn(m: seq<byte>, base: nat, d: Dir, i: nat)
    requires DirIn(m, base, d) && i < |d.files|
    ensures FileAddress(base, d, i) + FILE_HEADER + 4 <= |m|
    ensures Holds(m, FileAddress(base, d, i) + FILE_HEADER, d.files[i].content)
  {
    FileIn(m, base, d, i);
    HoldsBoth(m, FileAddress(base, d, i), FileHeader(d.files[i]), d.files[i].content);
  }

  lemma {:induction false} FindsNoFile(m: seq<byte>, base: nat, d: Dir, name: seq<byte>)
    requires DirIn(m, base, d) && !HasFile(d.files, name)
    ensures Readable(m, base) && FirstHit(m, base, name, 0) == None
  {
    DirReadable(m, base, d);
    forall j | 0 <= j < |d.files| ensures MatchAt(m, base, name, j) == None { FileMatchAt(m, base, d, name, j); }
    NoHit(m, base, name, 0);
  }

  // ----- The root directory

  // Memory holds the image of a good table with right root offsets, and four
  // readable bytes behind it.
  predicate Loaded(m: seq<byte>, ram: nat, t: Table) {
    && Good(t) && Writable(t) && RootRight(t) && DIR_HEADER + DirsLen(t.dirs) < U32
    && Holds(m, ram, Image(t)) && ram + |Image(t)| + 4 <= |m|
  }

  function RootBase(ram: nat): nat {
    ram + DISK_HEADER
  }

  lemma {:induction false} RootHolds(m: seq<byte>, ram: nat, t: Table)
    requires Loaded(m, ram, t)
    ensures Holds(m, RootBase(ram), DirHeader(RootDir(t)))
    ensures DirsHeld(m, RootBase(ram) + DIR_HEADER, t.dirs)
  {
    var h, r, ds := DiskHeader(SizeSum(t.dirs)), DirHeader(RootDir(t)), DirsImage(t.dirs);
    HoldsBoth(m, ram, h + r, ds);
    HoldsBoth(m, ram, h, r);
  }

  lemma {:induction false} RootReads(m: seq<byte>, ram: nat, t: Table)
    requires Loaded(m, ram, t)
    ensures RootBase(ram) + DIR_HEADER <= |m| && NumFiles(m, RootBase(ram)) == |t.dirs|
  {
    RootHolds(m, ram, t);
    DirHeaderReads(m, RootBase(ram), RootDir(t));
  }

  // The directories stand in memory from address a on.
  predicate DirsHeld(m: seq<byte>, a: nat, ds: seq<Dir>) {
    && Holds(m, a, DirsImage(ds)) && a + DirsLen(ds) + 4 <= |m|
    && forall i :: 0 <= i < |ds| ==> GoodDir(ds[i])
  }

  lemma {:induction false} DirsIn(m: seq<byte>, a: nat, ds: seq<Dir>, i: nat)
    requires DirsHeld(m, a, ds) && i < |ds|
    ensures DirIn(m, a + DirsLen(ds[..i]), ds[i])
  {
    DirAt(m, a, ds, i);
    DirsLenUpTo(ds, i);
  }

  lemma {:induction false} RootOffsetReads(m: seq<byte>, ram: nat, t: Table, i: nat)
    requires Loaded(m, ram, t) && i < |t.dirs|
    ensures RootBase(ram) + DIR_HEADER <= |m|
    ensures OffsetAt(m, RootBase(ram), i) == DIR_HEADER + DirsLen(t.dirs[..i])
  {
    RootHolds(m, ram, t);
    RootDirOffset(t, i);
    OffsetReads(m, RootBase(ram), RootDir(t), i);
  }

  lemma {:induction false} RootDirOffset(t: Table, i: nat)
    requires Writable(t) && RootRight(t) && i < |t.dirs| && DIR_HEADER + DirsLen(t.dirs) < U32
    ensures RootDir(t).offsets[i] == DIR_HEADER + DirsLen(t.dirs[..i]) < U32
  {
    DirsLenUpTo(t.dirs, i);
    assert RootOffset(t, i) == DIR_HEADER + DirsLen(t.dirs[..i]);
  }

  predicate ListedAt(m: seq<byte>, base: nat, ds: seq<Dir>, i: nat)
    requires base + DIR_HEADER <= |m| && i < |ds| <= MAX_DIRS
  {
    DirIn(m, base + OffsetAt(m, base, i), ds[i])
  }

  // The directory at base lists the directories ds.
  predicate Lists(m: seq<byte>, base: nat, ds: seq<Dir>) {
    && base + DIR_HEADER <= |m| && NumFiles(m, base) == |ds| <= MAX_DIRS
    && (forall i :: 0 <= i < |ds| ==> ListedAt(m, base, ds, i))
    && (forall i, j :: 0 <= i < j < |ds| ==> ds[i].name != ds[j].name)
  }

  lemma {:induction false} RootLists(m: seq<byte>, ram: nat, t: Table)
    requires Loaded(m, ram, t)
    ensures Lists(m, RootBase(ram), t.dirs)
  {
    RootReads(m, ram, t);
    RootHolds(m, ram, t);
    forall i | 0 <= i < |t.dirs| ensures OffsetAt(m, RootBase(ram), i) == DIR_HEADER + DirsLen(t.dirs[..i]) {
      RootOffsetReads(m, ram, t, i);
    }
    AllListed(m, RootBase(ram), t.dirs);
  }

  lemma {:induction false} AllListed(m: seq<byte>, base: nat, ds: seq<Dir>)
    requires base + DIR_HEADER <= |m| && DirsHeld(m, base + DIR_HEADER, ds) && |ds| <= MAX_DIRS
    requires forall i :: 0 <= i < |ds| ==> OffsetAt(m, base, i) == DIR_HEADER + DirsLen(ds[..i])
    ensures forall i :: 0 <= i < |ds| ==> ListedAt(m, base, ds, i)
  {
    forall i | 0 <= i < |ds| ensures ListedAt(m, base, ds, i) {
      DirsIn(m, base + DIR_HEADER, ds, i);
      assert base + OffsetAt(m, base, i) == base + DIR_HEADER + DirsLen(ds[..i]);
    }
  }

  lemma {:induction false} RootReadable(m: seq<byte>, base: nat, ds: seq<Dir>)
    requires Lists(m, base, ds)
    ensures Readable(m, base)
  {
    forall i | 0 <= i < |ds| ensures ReadableEntry(m, base + OffsetAt(m, base, i)) {
      assert ListedAt(m, base, ds, i);
      DirMatches(m, base + OffsetAt(m, base, i), 0, ds[i], []);
    }
  }

  function DirHit(m: seq<byte>, base: nat, ds: seq<Dir>, i: nat): Hit
    requires base + DIR_HEADER <= |m| && i < |ds| <= MAX_DIRS
  {
    Hit(OffsetAt(m, base, i), Directory, ds[i].inode, ds[i].size)
  }

  lemma {:induction false} DirMatchAt(m: seq<byte>, base: nat, ds: seq<Dir>, name: seq<byte>, i: nat)
    requires Lists(m, base, ds) && Readable(m, base) && i < |ds|
    ensures MatchAt(m, base, name, i) == if name == ds[i].name then Some(DirHit(m, base, ds, i)) else None
  {
    assert ListedAt(m, base, ds, i);
    DirMatches(m, base + OffsetAt(m, base, i), OffsetAt(m, base, i), ds[i], name);
  }

  lemma {:induction false} FindsDir(m: seq<byte>, base: nat, ds: seq<Dir>, i: nat)
    requires Lists(m, base, ds) && i < |ds|
    ensures Readable(m, base) && FirstHit(m, base, ds[i].name, 0) == Some(DirHit(m, base, ds, i))
  {
    RootReadable(m, base, ds);
    var name := ds[i].name;
    forall j | 0 <= j < i ensures MatchAt(m, base, name, j) == None { DirMatchAt(m, base, ds, name, j); }
    DirMatchAt(m, base, ds, name, i);
    FirstHitAt(m, base, name, 0, i);
  }

  lemma {:induction false} FindsNoDir(m: seq<byte>, base: nat, ds: seq<Dir>, name: seq<byte>)
    requires Lists(m, base, ds) && DirIndex(ds, name) == |ds|
    ensures Readable(m, base) && FirstHit(m, base, name, 0) == None
  {
    RootReadable(m, base, ds);
    forall j | 0 <= j < |ds| ensures MatchAt(m, base, name, j) == None { DirMatchAt(m, base, ds, name, j); }
    NoHit(m, base, name, 0);
  }

  // ----- The round trip

  // Memory holds the image that the arguments lead to. The directories' sizes
  // must be even, because the writer counts one size for all of them.
  predicate LoadedFrom(m: seq<byte>, ram: nat, args: seq<Arg>)
    requires AllOk(args)
  {
    && Usable(args) && Build(args).Some?
    && var t := Build(args).value;
    && Writable(t) && EvenSizes(t) && DIR_HEADER + DirsLen(t.dirs) < U32
    && Holds(m, ram, Image(t)) && ram + |Image(t)| + 4 <= |m|
  }

  lemma {:induction false} LoadedTable(m: seq<byte>, ram: nat, args: seq<Arg>)
    requires AllOk(args) && LoadedFrom(m, ram, args)
    ensures Loaded(m, ram, Build(args).value) && StoresExactly(Build(args).value, args)
  {
    BuildKeeps(args);
    RootExactly(Build(args).value);
  }

  // The reader accepts every image.
  lemma {:induction false} InitFinds(m: seq<byte>, ram: nat, t: Table)
    requires Writable(t) && Holds(m, ram, Image(t))
    ensures Init(m, ram, |Image(t)|) == Found(Root(ram))
  {
    var h, r, ds := DiskHeader(SizeSum(t.dirs)), DirHeader(RootDir(t)), DirsImage(t.dirs);
    HoldsBoth(m, ram, h + r, ds);
    HoldsBoth(m, ram, h, r);
    WordAt(m, ram, [SizeSum(t.dirs), HEADER_MAGIC, 0, 0, 0, 0, 0, 0], 1);
  }

  // What looking up a directory and then a file in it finds.
  predicate CanLook(m: seq<byte>, ram: nat, dir: seq<byte>) {
    && Readable(m, RootBase(ram))
    && var d := Lookup(m, Root(ram), dir);
    d.Found? && d.node.kind == Directory ==> Readable(m, d.node.pstart)
  }

  function LookupPath(m: seq<byte>, ram: nat, dir: seq<byte>, name: seq<byte>): Outcome
    requires CanLook(m, ram, dir)
  {
    match Lookup(m, Root(ram), dir)
    case Failed(e) => Failed(e)
    case Found(d) => Lookup(m, d, name)
  }

  lemma {:induction false} DirFound(m: seq<byte>, ram: nat, ds: seq<Dir>, i: nat)
    requires Lists(m, RootBase(ram), ds) && i < |ds|
    ensures CanLook(m, ram, ds[i].name)
    ensures var n := NodeOf(Root(ram), DirHit(m, RootBase(ram), ds, i));
      DirIn(m, n.pstart, ds[i]) && Lookup(m, Root(ram), ds[i].name) == Found(n)
  {
    DirLooked(m, ram, ds, i);
    DirListed(m, RootBase(ram), ds, i, NodeOf(Root(ram), DirHit(m, RootBase(ram), ds, i)).pstart);
  }

  lemma {:induction false} DirLooked(m: seq<byte>, ram: nat, ds: seq<Dir>, i: nat)
    requires Lists(m, RootBase(ram), ds) && i < |ds|
    ensures Readable(m, RootBase(ram))
    ensures Lookup(m, Root(ram), ds[i].name) == Found(NodeOf(Root(ram), DirHit(m, RootBase(ram), ds, i)))
  {
    FindsDir(m, RootBase(ram), ds, i);
    LookupHits(m, Root(ram), ds[i].name, DirHit(m, RootBase(ram), ds, i));
  }

  lemma {:induction false} DirListed(m: seq<byte>, base: nat, ds: seq<Dir>, i: nat, a: nat)
    requires Lists(m, base, ds) && i < |ds| && a == base + OffsetAt(m, base, i)
    ensures DirIn(m, a, ds[i]) && Readable(m, a)
  {
    assert ListedAt(m, base, ds, i);
    DirReadable(m, a, ds[i]);
  }

  lemma {:induction false} LookupHits(m: seq<byte>, parent: Node, name: seq<byte>, h: Hit)
    requires parent.kind == Directory && Readable(m, parent.pstart) && FirstHit(m, parent.pstart, name, 0) == Some(h)
    ensures Lookup(m, parent, name) == Found(NodeOf(parent, h))
  {
  }

  // The node of a written file: a regular file with the content behind its
  // header, unless the bytes behind the header read as the directory magic.
  predicate IsFileNode(m: seq<byte>, n: Node, content: seq<byte>) {
    && n.size == Int32(|content|)
    && n.pstart + FILE_HEADER + 4 <= |m| && Holds(m, n.pstart + FILE_HEADER, content)
    && (n.kind == Regular <==> Word(m, n.pstart + FILE_HEADER) != DIR_MAGIC)
  }

  lemma {:induction false} FileFoundIn(m: seq<byte>, parent: Node, d: Dir, j: nat)
    requires DirIn(m, parent.pstart, d) && parent.kind == Directory && j < |d.files|
    ensures Readable(m, parent.pstart)
    ensures var r := Lookup(m, parent, d.files[j].name); r.Found? && IsFileNode(m, r.node, d.files[j].content)
  {
    var a, f := FileAddress(parent.pstart, d, j), d.files[j];
    FindsFile(m, parent.pstart, d, j);
    LookupHits(m, parent, f.name, FileHit(m, a, a - parent.pstart, f));
    HitNode(m, parent, a, d, j);
  }

  lemma {:induction false} HitNode(m: seq<byte>, parent: Node, a: nat, d: Dir, j: nat)
    requires GoodDir(d) && j < |d.files| && parent.pstart <= a && a + FILE_HEADER + 4 <= |m|
    requires Holds(m, a + FILE_HEADER, d.files[j].content)
    ensures IsFileNode(m, NodeOf(parent, FileHit(m, a, a - parent.pstart, d.files[j])), d.files[j].content)
  {
    assert GoodFile(d.files[j]);
  }

  lemma {:induction false} FileFound(m: seq<byte>, ram: nat, ds: seq<Dir>, i: nat, j: nat)
    requires Lists(m, RootBase(ram), ds) && i < |ds| && j < |ds[i].files|
    ensures CanLook(m, ram, ds[i].name)
    ensures var r := LookupPath(m, ram, ds[i].name, ds[i].files[j].name);
      r.Found? && IsFileNode(m, r.node, ds[i].files[j].content)
  {
    DirFound(m, ram, ds, i);
    FileFoundIn(m, Lookup(m, Root(ram), ds[i].name).node, ds[i], j);
  }

  lemma {:induction false} StoredFound(m: seq<byte>, ram: nat, ds: seq<Dir>, a: Arg)
    requires Lists(m, RootBase(ram), ds) && Stored(ds, a)
    ensures CanLook(m, ram, a.dir)
    ensures var r := LookupPath(m, ram, a.dir, a.name); r.Found? && IsFileNode(m, r.node, a.content)
  {
    var i :| 0 <= i < |ds| && ds[i].name == a.dir && FileStored(ds[i].files, a);
    var fs := ds[i].files;
    var j :| 0 <= j < |fs| && fs[j].name == a.name && fs[j].content == a.content;
    FileFound(m, ram, ds, i, j);
  }

  // Main result: every file that the writer was given is found under its name,
  // with its size and its bytes. It is found as a file exactly when the four
  // bytes behind its header are not the directory magic.
  lemma {:induction false} RoundTrip(m: seq<byte>, ram: nat, args: seq<Arg>, a: Arg)
    requires AllOk(args) && LoadedFrom(m, ram, args) && a in args
    ensures CanLook(m, ram, a.dir)
    ensures var r := LookupPath(m, ram, a.dir, a.name); r.Found? && IsFileNode(m, r.node, a.content)
  {
    LoadedTable(m, ram, args);
    var t := Build(args).value;
    RootLists(m, ram, t);
    assert Stored(t.dirs, a);
    StoredFound(m, ram, t.dirs, a);
  }

  lemma {:induction false} NoFileFoundIn(m: seq<byte>, parent: Node, d: Dir, name: seq<byte>)
    requires DirIn(m, parent.pstart, d) && parent.kind == Directory && !HasFile(d.files, name)
    ensures Readable(m, parent.pstart) && Lookup(m, parent, name) == Failed(ENOENT)
  {
    FindsNoFile(m, parent.pstart, d, name);
  }

  lemma {:induction false} NotFoundInDir(m: seq<byte>, ram: nat, ds: seq<Dir>, i: nat, name: seq<byte>)
    requires Lists(m, RootBase(ram), ds) && i < |ds| && !HasFile(ds[i].files, name)
    ensures CanLook(m, ram, ds[i].name) && LookupPath(m, ram, ds[i].name, name) == Failed(ENOENT)
  {
    DirFound(m, ram, ds, i);
    NoFileFoundIn(m, Lookup(m, Root(ram), ds[i].name).node, ds[i], name);
  }

  lemma {:induction false} NoDirFound(m: seq<byte>, ram: nat, ds: seq<Dir>, dir: seq<byte>)
    requires Lists(m, RootBase(ram), ds) && DirIndex(ds, dir) == |ds|
    ensures CanLook(m, ram, dir) && Lookup(m, Root(ram), dir) == Failed(ENOENT)
  {
    FindsNoDir(m, RootBase(ram), ds, dir);
    LookupMisses(m, Root(ram), dir);
  }

  lemma {:induction false} LookupMisses(m: seq<byte>, parent: Node, name: seq<byte>)
    requires parent.kind == Directory && Readable(m, parent.pstart) && FirstHit(m, parent.pstart, name, 0) == None
    ensures Lookup(m, parent, name) == Failed(ENOENT)
  {
  }

  lemma {:induction false} NotFound(m: seq<byte>, ram: nat, ds: seq<Dir>, dir: seq<byte>, name: seq<byte>)
    requires Lists(m, RootBase(ram), ds)
    requires var i := DirIndex(ds, dir); i < |ds| ==> !HasFile(ds[i].files, name)
    ensures CanLook(m, ram, dir) && LookupPath(m, ram, dir, name) == Failed(ENOENT)
  {
    var i := DirIndex(ds, dir);
    if i == |ds| {
      NoDirFound(m, ram, ds, dir);
    } else {
      NotFoundInDir(m, ram, ds, i, name);
    }
  }

  lemma {:induction false} NotStored(t: Table, args: seq<Arg>, i: nat, name: seq<byte>)
    requires StoresExactly(t, args) && i < |t.dirs|
    requires forall a :: a in args ==> a.dir != t.dirs[i].name || a.name != name
    ensures !HasFile(t.dirs[i].files, name)
  {
    if HasFile(t.dirs[i].files, name) {
      var j :| 0 <= j < |t.dirs[i].files| && t.dirs[i].files[j].name == name;
      FileIsStored(t.dirs, i, j);
    }
  }

  // Main result: a name that was never written is not found.
  lemma {:induction false} NeverWritten(m: seq<byte>, ram: nat, args: seq<Arg>, dir: seq<byte>, name: seq<byte>)
    requires AllOk(args) && LoadedFrom(m, ram, args)
    requires forall a :: a in args ==> a.dir != dir || a.name != name
    ensures CanLook(m, ram, dir) && LookupPath(m, ram, dir, name) == Failed(ENOENT)
  {
    LoadedTable(m, ram, args);
    var t := Build(args).value;
    RootLists(m, ram, t);
    var i := DirIndex(t.dirs, dir);
    if i < |t.dirs| { NotStored(t, args, i, name); }
    NotFound(m, ram, t.dirs, dir, name);
  }

  // Main result: a read of count bytes at p gets the bytes [p, p + count) of
  // the content.
  lemma {:induction false} ReadsContent(m: seq<byte>, n: Node, content: seq<byte>, p: nat, count: nat, was: seq<byte>,
                                        now: seq<byte>)
    requires IsFileNode(m, n, content) && p + count <= |content|
    requires Delivered(was, now, m, n.pstart + FILE_HEADER + p, count)
    ensures now == content[p..p + count] + was[count..]
  {
    var a := n.pstart + FILE_HEADER;
    forall k | 0 <= k < count ensures now[k] == content[p + k] { assert m[a + (p + k)] == content[p + k]; }
  }

  // What a read of count bytes at p returns. The size is an int: a file of 2^31
  // bytes or more can be sought in, but not read.
  function ReadResult(content: seq<byte>, p: nat, count: nat): int {
    if p > |content| then -ESPIPE
    else if p + count <= |content| < 0x8000_0000 then count
    else -E2BIG
  }

  // Opens a file that was found and reads from it.
  method ReadFile(m: array<byte>, n: Node, ghost content: seq<byte>, p: nat, count: nat, buf: array<byte>)
    returns (r: int)
    requires IsFileNode(m[..], n, content) && |content| < U32
    requires OffT(p + count) && buf != m && count <= buf.Length
    modifies buf
    ensures r == if n.kind == Regular then ReadResult(content, p, count) else -EINVAL
    ensures buf[..] == if r >= 0 then content[p..p + count] + old(buf[..])[count..] else old(buf[..])
  {
    if n.kind != Regular { return -EINVAL; }
    var f := new OpenFile(n);
    r := f.Read(m, p, count, buf);
    if r >= 0 { ReadsContent(m[..], n, content, p, count, old(buf[..]), buf[..]); }
  }

  // The two lookups of a path.
  method FindPath(m: seq<byte>, ram: nat, dir: seq<byte>, name: seq<byte>) returns (r: Outcome)
    requires 0 !in dir && 0 !in name && CanLook(m, ram, dir)
    ensures r == LookupPath(m, ram, dir, name)
  {
    RootReadableAt(m, ram, dir);
    r := InodeLookup(m, Root(ram), dir);
    if r.Found? { r := InodeLookup(m, r.node, name); }
  }

  lemma {:induction false} RootReadableAt(m: seq<byte>, ram: nat, dir: seq<byte>)
    requires CanLook(m, ram, dir)
    ensures Readable(m, Root(ram).pstart)
  {
  }

  // The same for a file by its path.
  method ReadPath(m: array<byte>, ram: nat, dir: seq<byte>, name: seq<byte>, ghost content: seq<byte>, p: nat,
                  count: nat, buf: array<byte>)
    returns (r: int)
    requires 0 !in dir && 0 !in name && CanLook(m[..], ram, dir) && |content| < U32
    requires var n := LookupPath(m[..], ram, dir, name); n.Found? && IsFileNode(m[..], n.node, content)
    requires OffT(p + count) && buf != m && count <= buf.Length
    modifies buf
    ensures var n := LookupPath(old(m[..]), ram, dir, name);
      r == if n.node.kind == Regular then ReadResult(content, p, count) else -EINVAL
    ensures buf[..] == if r >= 0 then content[p..p + count] + old(buf[..])[count..] else old(buf[..])
  {
    var n := FindPath(m[..], ram, dir, name);
    r := ReadFile(m, n.node, content, p, count, buf);
  }
}
