/** What the steps of a run mean to a user, told on names and files alone. */
module SfsLaws {
  import opened Words
  import opened Errno
  import opened SfsLayout
  import opened SfsBlocks
  import opened SfsInodes
  import opened SfsTruncate
  import opened SfsDir
  import opened Sfs
  import opened Mksfs
  import opened SfsRun

  /** No file but `i` is other than it was. */
  ghost predicate OthersSame(a: AbsFs, b: AbsFs, i: nat) {
    forall j :: j != i ==> (j in b.files <==> j in a.files) && (j in a.files ==> b.files[j] == a.files[j])
  }

  /** No name but `name` leads anywhere else than it did. */
  ghost predicate NamesSame(a: AbsFs, b: AbsFs, name: Name) {
    forall n :: n != name ==> (n in b.names <==> n in a.names) && (n in a.names ==> b.names[n] == a.names[n])
  }

  /** `g` is `f` with other counts of links and references. */
  ghost predicate SameContents(f: FileView, g: FileView) {
    g.size == f.size && g.typ == f.typ && g.bytes == f.bytes
  }

  /** A removed name is gone and every other leads where it did; the file has one link less, or is gone exactly
      if that was its last link and nobody holds it; no other file changes. */
  lemma RemoveLaw(w: World, name: Name, x: World)
    requires Step(w, OpRemove(name), Result(EOK, []), x)
    ensures name in w.fs.names && name !in x.fs.names && NamesSame(w.fs, x.fs, name)
    ensures w.fs.names[name] in w.fs.files && OthersSame(w.fs, x.fs, w.fs.names[name])
    ensures var i := w.fs.names[name]; var f := w.fs.files[i];
      && f.links > 0 && (i !in x.fs.files <==> f.links == 1 && f.refs == 0)
      && (i in x.fs.files ==>
            x.fs.files[i].links == f.links - 1 && x.fs.files[i].refs == f.refs && SameContents(f, x.fs.files[i]))
  {
  }

  lemma RemoveThenLookup(w: World, name: Name, x: World, r: Result, y: World)
    requires Step(w, OpRemove(name), Result(EOK, []), x) && Step(x, OpLookup(name), r, y)
    ensures r == Result(ENOENT, []) && y == x
  {
    RemoveLaw(w, name, x);
  }

  /** A lookup finds just the names there are, and takes one reference. */
  lemma LookupLaw(w: World, name: Name, r: Result, x: World)
    requires Step(w, OpLookup(name), r, x)
    ensures x.fs.names == w.fs.names && x.room == w.room
    ensures name !in w.fs.names ==> r.err == ENOENT && x == w
    ensures name in w.fs.names ==>
      var i := w.fs.names[name];
      && r.err == EOK && i in w.fs.files && i in x.fs.files && OthersSame(w.fs, x.fs, i)
      && x.fs.files[i].refs == w.fs.files[i].refs + 1 && x.fs.files[i].links == w.fs.files[i].links
      && SameContents(w.fs.files[i], x.fs.files[i])
  {
  }

  /** A link adds one name, for the file given, and counts it. */
  lemma LinkLaw(w: World, name: Name, i: nat, x: World)
    requires Step(w, OpLink(name, i), Result(EOK, []), x)
    ensures name !in w.fs.names && name in x.fs.names && x.fs.names[name] == i && NamesSame(w.fs, x.fs, name)
    ensures i in w.fs.files && i in x.fs.files && OthersSame(w.fs, x.fs, i)
    ensures x.fs.files[i].links == w.fs.files[i].links + 1 && x.fs.files[i].refs == w.fs.files[i].refs
    ensures SameContents(w.fs.files[i], x.fs.files[i])
  {
  }

  /** A rename changes names only: the new one leads where the old one did, and the old one is gone. */
  lemma RenameLaw(w: World, n1: Name, n2: Name, x: World)
    requires Step(w, OpRename(n1, n2), Result(EOK, []), x)
    ensures n1 in w.fs.names && n2 !in w.fs.names && n1 !in x.fs.names
    ensures n2 in x.fs.names && x.fs.names[n2] == w.fs.names[n1] && x.fs.files == w.fs.files
    ensures forall n :: n != n1 && n != n2 ==>
      (n in x.fs.names <==> n in w.fs.names) && (n in w.fs.names ==> x.fs.names[n] == w.fs.names[n])
  {
  }

  /** A new name leads to a new file: empty, held once, with one link, and zeros wherever it may grow. */
  lemma CreatLaw(w: World, name: Name, excl: bool, x: World)
    requires Step(w, OpCreat(name, excl), Result(EOK, []), x) && name !in w.fs.names
    ensures name in x.fs.names && NamesSame(w.fs, x.fs, name)
    ensures var i := x.fs.names[name];
      && i !in w.fs.files && i in x.fs.files && OthersSame(w.fs, x.fs, i)
      && var f := x.fs.files[i];
         && f.size == 0 && f.typ == TYPE_FILE && f.links == 1 && f.refs == 1 && |f.bytes| == MAXFILE
         && forall k :: 0 <= k < MAXFILE ==> f.bytes[k] == 0
  {
  }

  /** With an old name creat is a lookup, or EEXIST. */
  lemma OpenLaw(w: World, name: Name, excl: bool, r: Result, x: World)
    requires Step(w, OpCreat(name, excl), r, x) && name in w.fs.names
    ensures if excl then r.err == EEXIST && x == w else Step(w, OpLookup(name), r, x)
  {
  }

  /** Closing gives up one reference, and the file goes exactly if that was the last and it has no name. */
  lemma CloseLaw(w: World, i: nat, r: Result, x: World)
    requires Step(w, OpClose(i), r, x)
    ensures x.fs.names == w.fs.names && i in w.fs.files && w.fs.files[i].refs > 0 && OthersSame(w.fs, x.fs, i)
    ensures i !in x.fs.files <==> w.fs.files[i].links == 0 && w.fs.files[i].refs == 1
    ensures i in x.fs.files ==>
      && x.fs.files[i].refs == w.fs.files[i].refs - 1 && x.fs.files[i].links == w.fs.files[i].links
      && SameContents(w.fs.files[i], x.fs.files[i])
  {
  }

  /** A file that is opened and closed again is as it was. */
  lemma OpenThenClose(w: World, name: Name, x: World, r: Result, y: World)
    requires Step(w, OpLookup(name), Result(EOK, []), x) && name in w.fs.names && w.fs.names[name] in w.fs.files
    requires w.fs.files[w.fs.names[name]].links > 0 && Step(x, OpClose(w.fs.names[name]), r, y)
    ensures y.fs == w.fs
  {
    LookupLaw(w, name, Result(EOK, []), x);
    var i := w.fs.names[name];
    CloseLaw(x, i, r, y);
    assert y.fs.files[i] == w.fs.files[i];
    assert y.fs.files == w.fs.files;
  }

  /** A write changes one run of bytes of one file, and its size if it grows; all of the data if it succeeds. */
  lemma WriteLaw(w: World, i: nat, at: nat, data: seq<byte>, r: Result, x: World) returns (m: nat)
    requires Step(w, OpWrite(i, at, data), r, x) && i != ROOT_LOCATION
    requires i in w.fs.files && |w.fs.files[i].bytes| == MAXFILE
    ensures x.fs.names == w.fs.names && i in x.fs.files && OthersSame(w.fs, x.fs, i)
    ensures m <= |data| && (m > 0 ==> at + m <= MAXFILE) && (r.err == EOK ==> m == |data|)
    ensures var f, g := w.fs.files[i], x.fs.files[i];
      && g.typ == f.typ && g.links == f.links && g.refs == f.refs && |g.bytes| == MAXFILE
      && g.size == (if at + m > f.size then at + m else f.size)
      && forall k :: 0 <= k < MAXFILE ==> g.bytes[k] == if at <= k < at + m then data[k - at] else f.bytes[k]
  {
    m :| WrittenPart(w.fs, i, at, data, r.err, x.fs, m);
  }

  /** A read returns what there is between its start and its end or the end of the file. */
  lemma ReadLaw(w: World, i: nat, at: nat, n: nat, r: Result, x: World)
    requires Step(w, OpRead(i, at, n), r, x) && i != ROOT_LOCATION
    ensures x == w && i in w.fs.files && |w.fs.files[i].bytes| == MAXFILE
    ensures w.fs.files[i].size <= MAXFILE ==> r.err == EOK
    ensures w.fs.files[i].size <= MAXFILE ==>
      var size := w.fs.files[i].size;
      |r.data| == (if at >= size then 0 else if at + n > size then size - at else n)
    ensures forall k :: 0 <= k < |r.data| ==> at + k < MAXFILE && r.data[k] == w.fs.files[i].bytes[at + k]
  {
  }

  /** The block a byte is in is kept by a truncation to `len`: it begins before the new end, or just past it
      beyond the direct blocks. */
  predicate Kept(len: nat, k: nat) {
    k / 512 * 512 < len || ((len + 511) / 512 >= 15 && k / 512 == (len + 511) / 512)
  }

  /** A truncation sets the size, and zeroes just the blocks it does not keep. */
  lemma TruncateLaw(w: World, i: nat, len: nat, r: Result, x: World)
    requires Step(w, OpTruncate(i, len), r, x) && i != ROOT_LOCATION
    ensures r.err == EOK && x.fs.names == w.fs.names
    ensures i in w.fs.files && i in x.fs.files && OthersSame(w.fs, x.fs, i)
    ensures var f, g := w.fs.files[i], x.fs.files[i];
      && g.size == len && g.typ == f.typ && g.links == f.links && g.refs == f.refs
      && |f.bytes| == MAXFILE && |g.bytes| == MAXFILE
      && forall k :: 0 <= k < MAXFILE ==> g.bytes[k] == if Kept(len, k) then f.bytes[k] else 0
  {
    forall k | 0 <= k < MAXFILE
      ensures Kept(len, k) <==> !(KeptBlocks((len + BLOCKSIZE - 1) / BLOCKSIZE) <= k / BLOCKSIZE < FILEBLOCKS)
    {
      KeptIs(len, k);
    }
  }

  lemma KeptIs(len: nat, k: nat)
    requires k < MAXFILE
    ensures Kept(len, k) <==> k / BLOCKSIZE < KeptBlocks((len + BLOCKSIZE - 1) / BLOCKSIZE)
    ensures k / BLOCKSIZE < FILEBLOCKS
  {
  }

  /** The errors of adding a name: each exactly when the name, its length or the directory is in the way, and
      never with two blocks free; and then nothing has changed. */
  lemma LinkErrors(w: World, name: Name, i: nat, r: Result, x: World)
    requires Step(w, OpLink(name, i), r, x)
    ensures r.err == EEXIST <==> name in w.fs.names
    ensures r.err == ENAMETOOLONG <==> name !in w.fs.names && |name| >= 60
    ensures r.err == EINVAL <==> name !in w.fs.names && |name| < 60 && |w.fs.names| == 1144
    ensures name !in w.fs.names && |name| < 60 && |w.fs.names| != 1144 && w.room >= 2 ==> r.err == EOK
    ensures r.err != EOK ==> x.fs == w.fs
  {
  }

  lemma RenameErrors(w: World, n1: Name, n2: Name, r: Result, x: World)
    requires Step(w, OpRename(n1, n2), r, x)
    ensures r.err == ENOENT <==> n1 !in w.fs.names
    ensures n1 in w.fs.names ==> (r.err == EEXIST <==> n2 in w.fs.names)
    ensures n1 in w.fs.names ==> (r.err == ENAMETOOLONG <==> n2 !in w.fs.names && |n2| >= 60)
    ensures n1 in w.fs.names && n2 !in w.fs.names && |n2| < 60 && |w.fs.names| != 1144 && w.room >= 2 ==> r.err == EOK
    ensures r.err != EOK ==> x.fs == w.fs
  {
  }

  lemma CreatErrors(w: World, name: Name, excl: bool, r: Result, x: World)
    requires Step(w, OpCreat(name, excl), r, x)
    ensures r.err == EEXIST <==> name in w.fs.names && excl
    ensures name in w.fs.names && !excl ==> r.err == EOK
    ensures name !in w.fs.names && w.room == 0 ==> r.err == ENOSPC
    ensures name !in w.fs.names && w.room > 0 ==>
      && (r.err == ENAMETOOLONG <==> |name| >= 60)
      && (r.err == EINVAL <==> |name| < 60 && |w.fs.names| == 1144)
    ensures name !in w.fs.names && |name| < 60 && |w.fs.names| != 1144 && w.room >= 3 ==> r.err == EOK
    ensures r.err != EOK ==> x.fs == w.fs
  {
  }

  /** A write fails only for want of blocks or past the largest file, 143 blocks; one that fits both succeeds. */
  lemma WriteErrors(w: World, i: nat, at: nat, data: seq<byte>, r: Result, x: World)
    requires Step(w, OpWrite(i, at, data), r, x)
    ensures r.err == EISDIR <==> i == ROOT_LOCATION
    ensures r.err in {EOK, EISDIR, EINVAL, ENOSPC} && (r.err == EISDIR ==> x.fs == w.fs)
    ensures r.err == ENOSPC ==> x.room == 0
    ensures r.err == EINVAL ==> at + |data| > 143 * 512
    ensures i != ROOT_LOCATION && at + |data| <= 143 * 512 && w.room > 2 * (|data| / 512 + 2) ==> r.err == EOK
  {
    if i != ROOT_LOCATION && at + |data| <= 143 * 512 && w.room > 2 * (|data| / 512 + 2) {
      WriteSucceeds(w, i, at, data, r, x);
    }
  }

  /** A run from mksfs starts with no names and no file but the root. */
  lemma EmptyLaw()
    ensures EmptyFs().names == map[] && EmptyFs().files.Keys == {1}
    ensures EmptyFs().files[1].links == 1 && EmptyFs().files[1].refs == 1 && EmptyFs().files[1].typ == TYPE_DIR
  {
  }

  lemma {:induction false} RoomUpTo(owner: seq<Owner>, lo: nat, hi: nat, m: nat)
    requires lo <= hi <= |owner| && m <= |owner|
    requires forall b :: 0 <= b < |owner| ==> (owner[b] == Free <==> lo <= b < hi)
    ensures Room(owner[..m]) == if m <= lo then 0 else if m <= hi then m - lo else hi - lo
  {
    if m == 0 {
      assert FreeBlocks(owner[..0]) == {};
    } else {
      RoomUpTo(owner, lo, hi, m - 1);
      assert FreeBlocks(owner[..m]) ==
        FreeBlocks(owner[..m - 1]) + if owner[m - 1] == Free then {(m - 1) as nat} else {};
    }
  }

  /** On a fresh disk all blocks are free but the superblock, the root inode and the map. */
  lemma RoomLaw(n: nat)
    requires 2 + (n + 4095) / 4096 <= n <= MAXBLOCKS
    ensures Room(FreshOwner(n)) == n - 2 - (n + 4095) / 4096
  {
    var owner := FreshOwner(n);
    RoomUpTo(owner, 2 + (n + 4095) / 4096, n, |owner|);
    assert owner[..|owner|] == owner;
  }

  /** What a run takes up: anything done to names, and anything done through a held reference, if the end of
      a write or truncation fits a signed 32-bit offset, the root is not renamed and the run's own reference
      to it not closed. */
  lemma LegalLaw(a: AbsFs, op: Op)
    ensures op.OpCreat? || op.OpLookup? || op.OpRemove? || op.OpSync? || op.OpRemount? ==> Legal(a, op)
    ensures op.OpLink? || op.OpRead? || op.OpWrite? || op.OpTruncate? || op.OpClose? ==>
      (Legal(a, op) ==> op.i in a.files && a.files[op.i].refs > 0)
    ensures (op.OpLink? || op.OpRead?) && op.i in a.files && a.files[op.i].refs > 0 ==> Legal(a, op)
    ensures op.OpWrite? && op.i in a.files && a.files[op.i].refs > 0 && op.at + |op.data| < 0x8000_0000 ==> Legal(a, op)
    ensures op.OpTruncate? && op.i in a.files && a.files[op.i].refs > 0 && op.len <= 0x8000_0000 - 512 ==> Legal(a, op)
    ensures op.OpClose? && op.i in a.files && a.files[op.i].refs > (if op.i == 1 then 1 else 0) ==> Legal(a, op)
    ensures op.OpRename? && (op.n1 in a.names ==> a.names[op.n1] != 1) ==> Legal(a, op)
  {
  }

  // ---------------------------------------------------------------- over whole runs

  predicate Touches(op: Op, i: nat) {
    (op.OpWrite? || op.OpTruncate?) && op.i == i
  }

  /** Nothing but a write or a truncation changes what is in a file that somebody holds. */
  lemma StepKeepsFile(w: World, op: Op, r: Result, x: World, i: nat)
    requires Taken(w, op, r, x) && !Touches(op, i) && i != ROOT_LOCATION && Held(w.fs, i) && i in x.fs.files
    ensures SameContents(w.fs.files[i], x.fs.files[i])
  {
    if Legal(w.fs, op) {
      match op
      case OpCreat(name, excl) =>
        if r.err == EOK && name !in w.fs.names {
          CreatLaw(w, name, excl, x);
        }
      case OpWrite(j, at, data) =>
        if j != ROOT_LOCATION && x.fs != w.fs {
          var m: nat :| WrittenPart(w.fs, j, at, data, r.err, x.fs, m);
        }
      case OpRemove(name) =>
        if r.err == EOK {
          RemoveLaw(w, name, x);
        }
      case _ =>
    }
  }

  lemma {:induction false} RunKeepsFile(trace: seq<World>, ops: seq<Op>, rs: seq<Result>, p: nat, q: nat, i: nat)
    requires Follows(trace, ops, rs) && p <= q <= |ops| && i != ROOT_LOCATION
    requires forall k :: p <= k < q ==> !Touches(ops[k], i)
    requires forall k :: p <= k <= q ==> Held(trace[k].fs, i)
    ensures Held(trace[p].fs, i) && Held(trace[q].fs, i) && SameContents(trace[p].fs.files[i], trace[q].fs.files[i])
    decreases q - p
  {
    hide Taken;
    if p == q {
    } else {
      assert Taken(trace[p], ops[p], rs[p], trace[p + 1]);
      assert Held(trace[p].fs, i) && Held(trace[p + 1].fs, i);
      StepKeepsFile(trace[p], ops[p], rs[p], trace[p + 1], i);
      RunKeepsFile(trace, ops, rs, p + 1, q, i);
    }
  }

  /** In every run, what was written is read back any number of operations later, whatever they are, if the
      file stayed open and was neither written nor truncated meanwhile. */
  lemma ReadBack(trace: seq<World>, ops: seq<Op>, rs: seq<Result>, p: nat, q: nat, i: nat, at: nat, data: seq<byte>)
    requires Follows(trace, ops, rs) && p < q < |ops| && i != ROOT_LOCATION && data != []
    requires ops[p] == OpWrite(i, at, data) && Legal(trace[p].fs, ops[p]) && rs[p].err == EOK
    requires |trace[p].fs.files[i].bytes| == MAXFILE && ops[q] == OpRead(i, at, |data|)
    requires forall k :: p < k < q ==> !Touches(ops[k], i)
    requires forall k :: p < k <= q ==> Held(trace[k].fs, i)
    ensures rs[q] == Result(EOK, data)
  {
    hide Step, Held, ReadResult;
    assert Taken(trace[p], ops[p], rs[p], trace[p + 1]) && Taken(trace[q], ops[q], rs[q], trace[q + 1]);
    LegalLaw(trace[p].fs, ops[p]);
    var m := WriteLaw(trace[p], i, at, data, rs[p], trace[p + 1]);
    RunKeepsFile(trace, ops, rs, p + 1, q, i);
    LegalLaw(trace[q].fs, ops[q]);
    HeldIs(trace[q].fs, i);
    ReadInside(trace[q], i, at, |data|, rs[q], trace[q + 1]);
    assert rs[q].data == data;
  }

  lemma HeldIs(a: AbsFs, i: nat)
    requires Held(a, i)
    ensures i in a.files && a.files[i].refs > 0
  {
  }

  lemma ReadInside(w: World, i: nat, at: nat, n: nat, r: Result, x: World)
    requires Step(w, OpRead(i, at, n), r, x) && i != ROOT_LOCATION && i in w.fs.files
    requires at + n <= w.fs.files[i].size && at + n <= MAXFILE && n > 0
    ensures r.err == EOK && |r.data| == n && |w.fs.files[i].bytes| == MAXFILE
    ensures forall k :: 0 <= k < n ==> r.data[k] == w.fs.files[i].bytes[at + k]
  {
  }
}
