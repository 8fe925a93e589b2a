/** Whole runs of the file system, from a fresh format on. */
module SfsRun {
  import opened Words
  import opened Bitmap
  import opened Seqs
  import opened Errno
  import opened Uio
  import opened SfsLayout
  import opened SfsBlocks
  import opened SfsInodes
  import opened SfsTruncate
  import opened SfsDir
  import opened Sfs
  import opened SfsMount
  import opened Mksfs

  /** What a user of the file system can ask for. */
  datatype Op =
    | OpCreat(name: Name, excl: bool)
    | OpLookup(name: Name)
    | OpLink(name: Name, i: nat)
    | OpRemove(name: Name)
    | OpRename(n1: Name, n2: Name)
    | OpRead(i: nat, at: nat, n: nat)
    | OpWrite(i: nat, at: nat, data: seq<byte>)
    | OpTruncate(i: nat, len: nat)
    | OpClose(i: nat)
    | OpSync
    | OpRemount

  /** Names and files, and how many blocks are free. */
  datatype World = World(fs: AbsFs, room: nat)

  /** What an operation returns; only reads return data. */
  datatype Result = Result(err: Errno, data: seq<byte>)

  ghost predicate Held(a: AbsFs, i: nat) {
    i in a.files && a.files[i].refs > 0
  }

  /** What the code demands of its callers: files are used through references the caller holds, offsets fit the
      signed 32-bit off_t, and a directory is not renamed.  The run keeps one reference to the root. */
  ghost predicate Legal(a: AbsFs, op: Op) {
    match op
    case OpLink(name, i) => Held(a, i)
    case OpRename(n1, n2) => n1 in a.names ==> a.names[n1] != ROOT_LOCATION
    case OpRead(i, at, n) => Held(a, i)
    case OpWrite(i, at, data) => Held(a, i) && at + |data| < 0x8000_0000
    case OpTruncate(i, len) => Held(a, i) && len + BLOCKSIZE <= 0x8000_0000
    case OpClose(i) => Held(a, i) && (i == ROOT_LOCATION ==> a.files[i].refs > 1)
    case _ => true
  }

  ghost predicate Created(a: AbsFs, name: Name, b: AbsFs, i: nat) {
    i !in a.files && b == AddLink(a.(files := a.files[i := NewFile()]), name, i)
  }

  /** The first `m` bytes were written: all of them unless the disk or the file is full. */
  ghost predicate WrittenPart(a: AbsFs, i: nat, at: nat, data: seq<byte>, err: Errno, b: AbsFs, m: nat) {
    && m <= |data| && (m == 0 || at + m <= MAXFILE) && b == Written(a, i, at, data[..m])
    && (err == EOK ==> m == |data|) && (err == EINVAL ==> at + m >= MAXFILE && at + |data| > MAXFILE)
  }

  /** What a read of `n` bytes at `at` returns. */
  ghost predicate ReadResult(f: FileView, at: nat, n: nat, r: Result) {
    && |f.bytes| == MAXFILE
    && r.err == (if ReadFails(f.size, at, n) then EINVAL else EOK)
    && var stop := ReadStop(f.size, at, n); r.data == if at < stop <= MAXFILE then f.bytes[at..stop] else []
  }

  /** Nobody but the run itself holds anything. */
  ghost predicate OnlyRoot(a: AbsFs) {
    forall i :: i in a.files ==> a.files[i].refs == if i == ROOT_LOCATION then 1 else 0
  }

  ghost predicate CreatStep(w: World, name: Name, excl: bool, err: Errno, x: World) {
    var a := w.fs;
    if name in a.names then
      && err == (if excl then EEXIST else EOK) && x.room == w.room && a.names[name] in a.files
      && x.fs == if excl then a else AddRef(a, a.names[name])
    else
      && (if w.room == 0 then err == ENOSPC else LinkResult(a.names, w.room - 1, name, err))
      && w.room <= x.room + 3
      && if err == EOK then x.room <= w.room && exists i :: Created(a, name, x.fs, i) else x.fs == a
  }

  /** The specification: how names, files and free space change in one operation, and what it returns. */
  ghost predicate Step(w: World, op: Op, r: Result, x: World) {
    var a, b, err := w.fs, x.fs, r.err;
    && (!op.OpRead? ==> r.data == [])
    && match op
       case OpCreat(name, excl) => CreatStep(w, name, excl, err, x)
       case OpLookup(name) =>
         && err == (if name in a.names then EOK else ENOENT) && x.room == w.room
         && if name in a.names then a.names[name] in a.files && b == AddRef(a, a.names[name]) else b == a
       case OpLink(name, i) =>
         && LinkResult(a.names, w.room, name, err) && x.room <= w.room <= x.room + 2
         && if err == EOK then i in a.files && b == AddLink(a, name, i) else b == a
       case OpRemove(name) =>
         && err == (if name in a.names then EOK else ENOENT) && w.room <= x.room
         && if name in a.names then
              a.names[name] in a.files && a.files[a.names[name]].links > 0 && b == DropName(a, name)
            else b == a
       case OpRename(n1, n2) =>
         && (if n1 in a.names then LinkResult(a.names, w.room, n2, err) else err == ENOENT)
         && x.room <= w.room <= x.room + 2
         && if err == EOK then b == Renamed(a, n1, n2) else b == a
       case OpRead(i, at, n) =>
         && x == w
         && if i == ROOT_LOCATION then r == Result(EISDIR, []) else i in a.files && ReadResult(a.files[i], at, n, r)
       case OpWrite(i, at, data) =>
         && err in {EOK, EISDIR, EINVAL, ENOSPC} && x.room <= w.room <= x.room + 2 * Touched(|data|)
         && (err == EISDIR <==> i == ROOT_LOCATION) && (err == ENOSPC ==> x.room == 0)
         && if i == ROOT_LOCATION then b == a else exists m :: WrittenPart(a, i, at, data, err, b, m)
       case OpTruncate(i, len) =>
         && err == (if i == ROOT_LOCATION then EISDIR else EOK) && w.room <= x.room
         && if i == ROOT_LOCATION then b == a
            else i in a.files && |a.files[i].bytes| == MAXFILE && b == a.(files := TruncView(a.files, i, len))
       case OpClose(i) => err == EOK && Held(a, i) && b == DropRef(a, i) && w.room <= x.room
       case OpSync => err == EOK && x == w
       case OpRemount => err == (if OnlyRoot(a) then EOK else EBUSY) && x == w
  }

  /** A write that fits the file and the disk succeeds. */
  lemma WriteSucceeds(w: World, i: nat, at: nat, data: seq<byte>, r: Result, x: World)
    requires Step(w, OpWrite(i, at, data), r, x) && i != ROOT_LOCATION
    requires at + |data| <= MAXFILE && w.room > 2 * Touched(|data|)
    ensures r.err == EOK
  {
    hide Written;
  }

  /** What a successful write wrote, the next read returns. */
  lemma WriteThenRead(w: World, i: nat, at: nat, data: seq<byte>, x: World, r: Result, y: World)
    requires i in w.fs.files && |w.fs.files[i].bytes| == MAXFILE && i != ROOT_LOCATION && data != []
    requires Step(w, OpWrite(i, at, data), Result(EOK, []), x) && Step(x, OpRead(i, at, |data|), r, y)
    ensures r == Result(EOK, data) && y == x
  {
    hide Splice;
    var m: nat :| WrittenPart(w.fs, i, at, data, EOK, x.fs, m);
    assert data[..m] == data;
    SpliceBack(w.fs.files[i].bytes, at, data);
  }

  lemma SpliceBack(bytes: seq<byte>, at: nat, data: seq<byte>)
    requires at + |data| <= |bytes|
    ensures Splice(bytes, at, data)[at..at + |data|] == data
  {
  }

  ghost predicate Running(fs: SfsFs)
    reads fs, fs.freemap.v
  {
    fs.Inv() && ROOT_LOCATION in fs.vnodes
  }

  ghost function W(fs: SfsFs): World
    reads fs, fs.freemap.v
    requires Running(fs)
  {
    World(fs.A(), Room(fs.owner))
  }

  lemma HeldHere(fs: SfsFs, i: nat)
    requires Running(fs) && Held(fs.A(), i)
    ensures i in fs.vnodes && fs.vnodes[i].refs == fs.A().files[i].refs
  {
    hide DirMap, NamesUnique, LinksTo, Entry, Owned, Clean, Flat;
  }

  method ExecClose(fs: SfsFs, i: nat)
    requires Running(fs) && Legal(fs.A(), OpClose(i))
    modifies fs, fs.freemap.v
    ensures Running(fs) && Step(old(W(fs)), OpClose(i), Result(EOK, []), W(fs))
  {
    hide DirOk, ViewOf, Core, AbsOf, Room;
    HeldHere(fs, i);
    ghost var v := ViewOf(fs.S());
    CachedLive(fs.S(), i);
    CachedLive(fs.S(), ROOT_LOCATION);
    RefsPositive(fs.S(), ROOT_LOCATION);
    RootFacts(fs.S());
    AbsDecref(v, i);
    RefsPositive(fs.S(), i);
    fs.Decref(i);
    assert ViewOf(fs.S())[ROOT_LOCATION].refs > 0;
    HeldCached(fs.S(), ROOT_LOCATION);
  }

  method ExecWrite(fs: SfsFs, i: nat, at: nat, data: seq<byte>) returns (err: Errno)
    requires Running(fs) && Legal(fs.A(), OpWrite(i, at, data))
    modifies fs, fs.freemap.v
    ensures Running(fs) && Step(old(W(fs)), OpWrite(i, at, data), Result(err, []), W(fs))
  {
    hide DirOk, ViewOf, Core, AbsOf, Written, Room;
    HeldHere(fs, i);
    var buf := new byte[|data|](k requires 0 <= k < |data| => data[k]);
    assert buf[..] == data;
    var uio := new UioObj(buf, at, Write);
    ghost var a := fs.A();
    err := fs.WriteFile(i, uio);
    if err != EISDIR {
      ghost var m := uio.offset - at;
      assert buf[0..m] == data[..m];
      assert WrittenPart(a, i, at, data, err, fs.A(), m);
    }
  }

  method ExecRead(fs: SfsFs, i: nat, at: nat, n: nat) returns (r: Result)
    requires Running(fs) && Legal(fs.A(), OpRead(i, at, n))
    modifies fs, fs.freemap.v
    ensures Running(fs) && Step(old(W(fs)), OpRead(i, at, n), r, W(fs))
  {
    hide DirOk, ViewOf, Core, AbsOf, Room, ReadInto, ReadStop, ReadFails;
    HeldHere(fs, i);
    var buf := new byte[n](_ => 0);
    var uio := new UioObj(buf, at, Read);
    ghost var a, mem := fs.A(), buf[..];
    var err := fs.ReadFile(i, uio);
    if err == EISDIR {
      return Result(EISDIR, []);
    }
    FileBytes(fs, i);
    ReadData(mem, a.files[i].bytes, at, uio.offset);
    StopBound(a.files[i].size, at, n);
    r := Result(err, buf[..uio.offset - at]);
  }

  lemma FileBytes(fs: SfsFs, i: nat)
    requires Running(fs) && i in fs.A().files && i != ROOT_LOCATION
    ensures |fs.A().files[i].bytes| == MAXFILE
  {
    hide DirMap, NamesUnique, LinksTo, Entry, Owned, Clean, Flat;
  }

  lemma StopBound(size: nat, at: nat, n: nat)
    ensures at <= ReadStop(size, at, n) <= at + n && (at < ReadStop(size, at, n) ==> ReadStop(size, at, n) <= MAXFILE)
  {
  }

  lemma ReadData(mem: seq<byte>, file: seq<byte>, at: nat, stop: nat)
    requires at <= stop <= at + |mem|
    ensures |ReadInto(mem, 0, file, at, stop)| == |mem|
    ensures at < stop <= |file| ==> ReadInto(mem, 0, file, at, stop)[..stop - at] == file[at..stop]
  {
  }

  method ExecCreat(fs: SfsFs, name: Name, excl: bool) returns (err: Errno)
    requires Running(fs)
    modifies fs, fs.freemap.v
    ensures Running(fs) && Step(old(W(fs)), OpCreat(name, excl), Result(err, []), W(fs))
  {
    hide DirOk, ViewOf, Core, AbsOf, Room, LinkResult, AddLink;
    ghost var a := fs.A();
    var ino;
    NamedFile(ViewOf(fs.S()), name);
    err, ino := fs.Creat(name, excl);
    if err == EOK && name !in a.names {
      assert Created(a, name, fs.A(), ino);
    }
  }

  lemma NamedFile(v: View, name: Name)
    requires DirOk(v)
    ensures name in AbsOf(v).names ==> AbsOf(v).names[name] in AbsOf(v).files
  {
    hide NamesUnique, LinksTo, NameAt, Entry;
    var d := v[ROOT_LOCATION];
    if name in DirMap(d) {
      var k: nat :| 0 <= k < NEnt(d) && Used(d, k) && NameAt(d, k) == name && Entry(d, k).ino == DirMap(d)[name];
      assert AbsOf(v).names[name] == Entry(d, k).ino && Entry(d, k).ino in v;
    }
  }

  /** The vnode table is empty exactly when nobody holds a file. */
  lemma TableEmpty(s: Fs)
    requires Core(s)
    ensures s.table == [] <==> forall i :: i in ViewOf(s) ==> ViewOf(s)[i].refs == 0
  {
    hide Owned, Clean, Flat, Ino;
    CoreTables(s);
    if s.table != [] {
      var i := s.table[0];
      assert i in ViewOf(s) && ViewOf(s)[i].refs > 0;
    }
  }

  lemma AloneIff(v: View)
    requires DirOk(v) && v[ROOT_LOCATION].refs > 0 && v[ROOT_LOCATION].links > 0
    ensures OnlyRoot(AbsOf(v))
      <==> forall i :: i in DecrefView(v, ROOT_LOCATION) ==> DecrefView(v, ROOT_LOCATION)[i].refs == 0
  {
    hide DirMap, NamesUnique, LinksTo, Entry;
    var w, a := DecrefView(v, ROOT_LOCATION), AbsOf(v);
    assert forall i :: i in w <==> i in a.files;
    assert forall i :: i in a.files && i != ROOT_LOCATION ==> w[i].refs == a.files[i].refs;
  }

  lemma CleanMagic(s: Fs)
    requires Core(s) && AllClean(s)
    ensures |s.disk| > 0 && GetSuper(s.disk[SB_LOCATION]).magic == SFS_MAGIC
  {
    hide Owned, PutSuper, GetSuper, PutInode, MapSlice;
    SuperRoundTrip(s.super);
  }

  lemma DropAndLoad(v: View)
    requires ROOT_LOCATION in v && v[ROOT_LOCATION].refs > 0 && v[ROOT_LOCATION].links > 0
    ensures var w := DecrefView(v, ROOT_LOCATION);
            ROOT_LOCATION in w && w[ROOT_LOCATION := w[ROOT_LOCATION].(refs := w[ROOT_LOCATION].refs + 1)] == v
  {
  }

  /** The run gives up its reference to the root, and tries to unmount. */
  method Dismount(fs: SfsFs) returns (err: Errno)
    requires Running(fs)
    modifies fs, fs.freemap.v
    ensures fs.Inv() && AllClean(fs.S()) && fs.owner == old(fs.owner)
    ensures err == (if OnlyRoot(old(fs.A())) then EOK else EBUSY) && (err == EOK ==> fs.table == [])
    ensures ROOT_LOCATION in ViewOf(fs.S())
    ensures var w := ViewOf(fs.S());
            w[ROOT_LOCATION := w[ROOT_LOCATION].(refs := w[ROOT_LOCATION].refs + 1)] == old(ViewOf(fs.S()))
  {
    hide DirOk, ViewOf, Core, AbsOf, OnlyRoot, DecrefView, AllClean;
    ghost var v := ViewOf(fs.S());
    CachedLive(fs.S(), ROOT_LOCATION);
    RefsPositive(fs.S(), ROOT_LOCATION);
    RootFacts(fs.S());
    AbsDecref(v, ROOT_LOCATION);
    AloneIff(v);
    DropAndLoad(v);
    fs.Decref(ROOT_LOCATION);
    Sync(fs);
    TableEmpty(fs.S());
    err := Unmount(fs);
  }

  /** Unmount and mount again.  Every other holder of a vnode stands in the way; if there is none, the new
      mount has the same names, files and free space. */
  method ExecRemount(before: SfsFs) returns (err: Errno, fs: SfsFs)
    requires Running(before)
    modifies before, before.freemap.v
    ensures fs == before || (fresh(fs) && fresh(fs.freemap.v))
    ensures Running(fs) && Step(old(W(before)), OpRemount, Result(err, []), W(fs))
  {
    hide DirOk, ViewOf, Core, AbsOf, Room, GetSuper, Mounted, OnlyRoot, AllClean, BitBlocks;
    fs := before;
    ghost var v := ViewOf(fs.S());
    err := Dismount(fs);
    if err == EOK {
      UnmountRemount(fs.S());
      CleanMagic(fs.S());
      ghost var s := fs.S();
      var panicked, e, g := Mount(fs.disk, BLOCKSIZE, fs.owner);
      fs := g;
      assert fs.S() == s;
    }
    ViewLive(fs.S(), ROOT_LOCATION);
    KnownType(fs.S(), ROOT_LOCATION);
    fs.LoadVnode(ROOT_LOCATION, TYPE_INVAL);
    assert ViewOf(fs.S()) == v;
  }

  /** Whether an operation meets the code's demands on its callers. */
  method IsLegal(fs: SfsFs, op: Op) returns (legal: bool)
    requires Running(fs)
    modifies fs, fs.freemap.v
    ensures Running(fs) && fs.S() == old(fs.S()) && (legal <==> Legal(fs.A(), op))
  {
    hide DirOk, ViewOf, Core;
    match op
    case OpCreat(_, _) => legal := true;
    case OpLookup(_) => legal := true;
    case OpRemove(_) => legal := true;
    case OpSync => legal := true;
    case OpRemount => legal := true;
    case OpLink(_, i) => HeldCachedIff(fs, i); legal := i in fs.vnodes;
    case OpRead(i, _, _) => HeldCachedIff(fs, i); legal := i in fs.vnodes;
    case OpWrite(i, at, data) => HeldCachedIff(fs, i); legal := i in fs.vnodes && at + |data| < 0x8000_0000;
    case OpTruncate(i, len) => HeldCachedIff(fs, i); legal := i in fs.vnodes && len + BLOCKSIZE <= 0x8000_0000;
    case OpClose(i) => HeldCachedIff(fs, i); legal := i in fs.vnodes && (i == ROOT_LOCATION ==> fs.vnodes[i].refs > 1);
    case OpRename(n1, n2) =>
      var err, ino, slot, emptyslot := fs.FindName(n1);
      legal := err != EOK || ino != ROOT_LOCATION;
  }

  lemma HeldCachedIff(fs: SfsFs, i: nat)
    requires Running(fs)
    ensures i in fs.vnodes <==> Held(fs.A(), i)
    ensures i in fs.vnodes ==> fs.vnodes[i].refs == fs.A().files[i].refs
  {
    hide DirMap, NamesUnique, LinksTo, Entry, Owned, Clean, Flat;
  }

  /** One legal operation does what the specification allows. */
  method Exec(before: SfsFs, op: Op) returns (r: Result, fs: SfsFs)
    requires Running(before) && Legal(before.A(), op)
    modifies before, before.freemap.v
    ensures fs == before || (fresh(fs) && fresh(fs.freemap.v))
    ensures Running(fs) && Step(old(W(before)), op, r, W(fs))
    ensures op == OpSync ==> AllClean(fs.S())
  {
    hide DirOk, ViewOf, Core, AbsOf, DropName, Renamed, AddLink, TruncView, CreatStep, LinkResult, ReadResult, Room,
      OnlyRoot;
    fs := before;
    var err := EOK;
    match op {
      case OpCreat(name, excl) => err := ExecCreat(fs, name, excl);
      case OpLookup(name) => var ino, slot; err, ino, slot := fs.LookOnce(name);
      case OpLink(name, i) => HeldHere(fs, i); err := fs.Link(name, i);
      case OpRemove(name) => err := fs.Remove(name);
      case OpRename(n1, n2) => err := fs.Rename(n1, n2);
      case OpRead(i, at, n) => r := ExecRead(fs, i, at, n); return;
      case OpWrite(i, at, data) => err := ExecWrite(fs, i, at, data);
      case OpTruncate(i, len) => HeldHere(fs, i); err := fs.TruncateFile(i, len);
      case OpClose(i) => ExecClose(fs, i);
      case OpSync => Sync(fs);
      case OpRemount => err, fs := ExecRemount(fs);
    }
    r := Result(err, []);
  }

  /** Each operation of a run took the names, files and free space from one state of the trace to the next as specified,
      and returned what it should; those the code does not allow were left out. */
  ghost predicate Follows(trace: seq<World>, ops: seq<Op>, rs: seq<Result>) {
    && |trace| == |ops| + 1 && |rs| == |ops|
    && forall k :: 0 <= k < |ops| ==> Taken(trace[k], ops[k], rs[k], trace[k + 1])
  }

  ghost predicate Taken(w: World, op: Op, r: Result, x: World) {
    if Legal(w.fs, op) then Step(w, op, r, x) else x == w
  }

  /** Every run keeps the whole invariant and refines the specification. */
  method Run(before: SfsFs, ops: seq<Op>) returns (ghost trace: seq<World>, rs: seq<Result>, fs: SfsFs)
    requires Running(before)
    modifies before, before.freemap.v
    ensures fs == before || (fresh(fs) && fresh(fs.freemap.v))
    ensures Running(fs) && Follows(trace, ops, rs) && trace[0] == old(W(before)) && trace[|ops|] == W(fs)
  {
    hide DirOk, ViewOf, Core, AbsOf, Step, Legal, Room;
    fs := before;
    trace, rs := [W(fs)], [];
    for k := 0 to |ops|
      invariant fs == before || (fresh(fs) && fresh(fs.freemap.v))
      invariant Running(fs) && |trace| == k + 1 && |rs| == k && trace[0] == old(W(before)) && trace[k] == W(fs)
      invariant forall j :: 0 <= j < k ==> Taken(trace[j], ops[j], rs[j], trace[j + 1])
    {
      var legal := IsLegal(fs, ops[k]);
      var r := Result(EOK, []);
      if legal {
        r, fs := Exec(fs, ops[k]);
      }
      trace, rs := trace + [W(fs)], rs + [r];
    }
  }

  /** The empty file system, with the run's reference to the root. */
  ghost function EmptyFs(): AbsFs {
    AbsFs(map[], map[ROOT_LOCATION := HideDir(ROOT_LOCATION, EmptyDir().(refs := 1))])
  }

  lemma FreshMagic(disk: seq<Block>, volname: Name)
    requires Fresh(disk, volname)
    ensures |disk| > 0 && GetSuper(disk[SB_LOCATION]).magic == SFS_MAGIC
      && GetSuper(disk[SB_LOCATION]).nblocks == |disk|
  {
    hide PutSuper, GetSuper, PutInode, GetInode, IsSet;
    FreshSuper(disk, volname);
  }

  lemma StartAbs()
    ensures var v := map[ROOT_LOCATION := EmptyDir().(refs := 1)];
            DirOk(v) && AbsOf(v) == EmptyFs()
  {
    var v := map[ROOT_LOCATION := EmptyDir().(refs := 1)];
    var d := v[ROOT_LOCATION];
    assert NEnt(d) == 0;
    assert Inos(d) == [];
    assert DirOk(v);
    assert DirMap(d) == map[];
  }

  /** Format a disk, mount it and run: every run starts from the empty file system, keeps the invariant and follows
      the specification, whatever was on the disk before. */
  method RunFromFormat(disk0: seq<Block>, volname: Name, ops: seq<Op>)
    returns (status: Status, fs: SfsFs?, ghost trace: seq<World>, rs: seq<Result>)
    requires 2 <= |disk0| < 0x1_0000_0000
    ensures fs != null <==> |volname| < 32 && |disk0| <= MAXBLOCKS && MAP_LOCATION + BitBlocks(|disk0|) <= |disk0|
    ensures fs != null ==>
              && Running(fs) && Follows(trace, ops, rs) && trace[|ops|] == W(fs)
              && trace[0] == World(EmptyFs(), Room(FreshOwner(|disk0|)))
  {
    hide DirOk, ViewOf, Core, AbsOf, GetSuper, Room, Follows;
    fs, trace, rs := null, [], [];
    var disk;
    status, disk := Format(disk0, volname);
    if status != Done || |disk0| > MAXBLOCKS {
      return;
    }
    var g := Start(disk, volname);
    trace, rs, fs := Run(g, ops);
  }

  /** Mounting a formatted disk, with one reference to the root. */
  method Start(disk: seq<Block>, volname: Name) returns (fs: SfsFs)
    requires Fresh(disk, volname)
    ensures fresh(fs) && fresh(fs.freemap.v) && Running(fs)
    ensures W(fs) == World(EmptyFs(), Room(FreshOwner(|disk|)))
  {
    hide DirOk, ViewOf, Core, AbsOf, Fresh, GetSuper, Room;
    FreshMounts(disk, volname);
    FreshMagic(disk, volname);
    var panicked, err, g := Mount(disk, BLOCKSIZE, FreshOwner(|disk|));
    fs := g;
    assert fs.Valid();
    ghost var v := ViewOf(fs.S());
    assert v == map[ROOT_LOCATION := EmptyDir()];
    ViewLive(fs.S(), ROOT_LOCATION);
    KnownType(fs.S(), ROOT_LOCATION);
    fs.LoadVnode(ROOT_LOCATION, TYPE_INVAL);
    assert ViewOf(fs.S()) == map[ROOT_LOCATION := EmptyDir().(refs := 1)];
    StartAbs();
  }

  // ---------------------------------------------------------------- a truncation that keeps too much

  lemma RoomFresh()
    ensures |FreshOwner(64)| == 4096 && Room(FreshOwner(64)) >= 5
  {
    var some: set<nat> := {10, 11, 12, 13, 14};
    assert some <= FreeBlocks(FreshOwner(64));
    SubsetSize(some, FreeBlocks(FreshOwner(64)));
    assert |some| == 5;
  }

  /** A byte that is not 0 is in a mapped block. */
  lemma MappedByte(fs: SfsFs, i: nat, k: nat)
    requires Running(fs) && i in fs.A().files && i != ROOT_LOCATION && k < MAXFILE
    requires |fs.A().files[i].bytes| == MAXFILE && fs.A().files[i].bytes[k] != 0
    ensures i < |fs.disk| && Slot(fs.S(), i, k / BLOCKSIZE) != 0
  {
    hide Owned, Clean, Slot, DirOk, AbsOf;
    var s := fs.S();
    FileHere(ViewOf(s), i);
    SlotBlock(s, i, k / BLOCKSIZE);
  }

  lemma FileHere(v: View, i: nat)
    requires DirOk(v) && i in AbsOf(v).files && i != ROOT_LOCATION
    ensures i in v && AbsOf(v).files[i] == v[i]
  {
    hide DirMap, NamesUnique, LinksTo, Entry;
  }

  /** Truncation to 8192, the first byte of block 16, of a file with a byte there, on a freshly formatted
      disk: block 16 stays mapped, and the byte is still there past the end of the file. */
  method TruncateKeepsBlock() returns (fs: SfsFs, ino: nat)
    ensures Running(fs) && ino in fs.A().files && ino < |fs.disk|
    ensures fs.A().files[ino].size == 8192 && |fs.A().files[ino].bytes| == MAXFILE
    ensures fs.A().files[ino].bytes[8192] == 1 && Slot(fs.S(), ino, 16) != 0
  {
    hide DirOk, ViewOf, Core, AbsOf, GetSuper, Room, FreshOwner, Fresh, CutMaps, Slot, Splice, ZeroBlocks;
    var name: Name := [97];
    var status, disk := Format(seq(64, _ => Zeros(BLOCKSIZE)), name);
    RoomFresh();
    fs := Start(disk, name);
    var err;
    err, ino := fs.Creat(name, false);
    assert err == EOK && fs.A().files[ino] == NewFile().(links := 1);
    WriteOne(fs, ino);
    ghost var a := fs.A();
    err := fs.TruncateFile(ino, 8192);
    KeptByte(a.files, ino);
    MappedByte(fs, ino, 8192);
  }

  /** One byte at 8192 of an empty file, which takes a data block and the indirect block. */
  method WriteOne(fs: SfsFs, i: nat)
    requires Running(fs) && i in fs.vnodes && i in fs.A().files && i != ROOT_LOCATION && Room(fs.owner) >= 2
    requires |fs.A().files[i].bytes| == MAXFILE
    modifies fs, fs.freemap.v
    ensures Running(fs) && i in fs.vnodes && i in fs.A().files && |fs.A().files[i].bytes| == MAXFILE
    ensures fs.A().files[i].bytes[8192] == 1
  {
    hide DirOk, ViewOf, Core, AbsOf, Room, Slot;
    var buf := new byte[1](_ => 1);
    var uio := new UioObj(buf, 8192, Write);
    var err := fs.WriteFile(i, uio);
    assert err == EOK;
    assert buf[0..1] == [1];
  }

  lemma KeptByte(v: View, i: nat)
    requires i in v && |v[i].bytes| == MAXFILE
    ensures TruncView(v, i, 8192)[i].bytes[8192] == v[i].bytes[8192]
  {
    assert KeptBlocks((8192 + BLOCKSIZE - 1) / BLOCKSIZE) == 17;
  }

  // ---------------------------------------------------------------- bytes past the end of file

  ghost predicate Tails(a: AbsFs) {
    forall i :: i in a.files && i != ROOT_LOCATION ==> |a.files[i].bytes| == MAXFILE && ZeroTail(a.files[i])
  }

  /** No truncation but to nothing. */
  predicate OnlyToZero(op: Op) {
    op.OpTruncate? ==> op.len == 0
  }

  lemma WriteTails(a: AbsFs, i: nat, at: nat, data: seq<byte>)
    requires Tails(a) && i != ROOT_LOCATION && (data == [] || at + |data| <= MAXFILE)
    ensures Tails(Written(a, i, at, data))
  {
    hide Splice;
    if i in a.files && data != [] {
      var f := a.files[i];
      WriteKeepsTail(f, at, data, if at + |data| > f.size then at + |data| else f.size);
    }
  }

  lemma TruncTails(a: AbsFs, i: nat)
    requires Tails(a) && i != ROOT_LOCATION && i in a.files
    ensures Tails(a.(files := TruncView(a.files, i, 0)))
  {
    hide ZeroBlocks;
    TruncateZeroesTail(a.files, i, 0);
  }

  /** An operation other than truncation to a positive length keeps all bytes past the ends of files zero. */
  lemma StepTails(w: World, op: Op, r: Result, x: World)
    requires Tails(w.fs) && Step(w, op, r, x) && OnlyToZero(op)
    ensures Tails(x.fs)
  {
    hide Written, TruncView, ZeroTail, LinkResult, ReadResult, OnlyRoot;
    var a, b := w.fs, x.fs;
    match op
    case OpCreat(name, excl) =>
      NewTail();
    case OpWrite(i, at, data) =>
      if b != a {
        var m: nat :| WrittenPart(a, i, at, data, r.err, b, m);
        WriteTails(a, i, at, data[..m]);
      }
    case OpTruncate(i, len) =>
      if b != a {
        TruncTails(a, i);
      }
    case _ =>
      SameTails();
  }

  lemma NewTail()
    ensures ZeroTail(NewFile()) && |NewFile().bytes| == MAXFILE
    ensures forall f: FileView, l, r {:trigger f.(links := l, refs := r)} :: ZeroTail(f) ==>
      ZeroTail(f.(links := l, refs := r))
  {
  }

  lemma SameTails()
    ensures forall f: FileView, l {:trigger f.(links := l)} :: ZeroTail(f.(links := l)) <==> ZeroTail(f)
    ensures forall f: FileView, r {:trigger f.(refs := r)} :: ZeroTail(f.(refs := r)) <==> ZeroTail(f)
  {
  }

  /** Over a whole run that truncates only to nothing, the bytes past the ends of files stay zero. */
  lemma {:induction false} RunTails(trace: seq<World>, ops: seq<Op>, rs: seq<Result>, k: nat)
    requires Follows(trace, ops, rs) && Tails(trace[0].fs) && k <= |ops| && forall op :: op in ops ==> OnlyToZero(op)
    ensures Tails(trace[k].fs)
    decreases k
  {
    if k == 0 {
    } else {
      RunTails(trace, ops, rs, k - 1);
      assert Taken(trace[k - 1], ops[k - 1], rs[k - 1], trace[k]);
      assert ops[k - 1] in ops;
      if Legal(trace[k - 1].fs, ops[k - 1]) {
        StepTails(trace[k - 1], ops[k - 1], rs[k - 1], trace[k]);
      }
    }
  }
}
