/** SFS: the mounted file system and its operations (os161/kern/fs/sfs/sfs_vnode.c, sfs_fs.c). */
module Sfs {
  import opened Words
  import opened Bitmap
  import opened Errno
  import opened Uio
  import opened SfsLayout
  import opened SfsBlocks
  import opened SfsInodes
  import opened SfsTruncate
  import opened SfsDir

  /** The files after `data` is written into file `i` at `at`; the size is not yet adjusted. */
  ghost function PutBytes(v: View, i: nat, at: nat, data: seq<byte>): View
    requires i in v && |v[i].bytes| == MAXFILE && (data == [] || at + |data| <= MAXFILE)
  {
    if data == [] then v else v[i := v[i].(bytes := Splice(v[i].bytes, at, data))]
  }

  lemma PutBytesTwice(v: View, i: nat, at: nat, d: seq<byte>, e: seq<byte>)
    requires i in v && |v[i].bytes| == MAXFILE && (d + e == [] || at + |d| + |e| <= MAXFILE)
    ensures PutBytes(PutBytes(v, i, at, d), i, at + |d|, e) == PutBytes(v, i, at, d + e)
  {
    if d == [] {
      assert d + e == e;
    } else if e == [] {
      assert d + e == d;
    } else {
      SpliceTwice(v[i].bytes, at, d, e);
    }
  }

  /** Replacing a whole block by itself with `data` spliced in writes just `data`. */
  lemma SpliceInBlock(bytes: seq<byte>, p: nat, skip: nat, data: seq<byte>)
    requires |bytes| == MAXFILE && p < FILEBLOCKS && skip + |data| <= BLOCKSIZE
    ensures Splice(bytes, p * BLOCKSIZE, Splice(bytes[p * BLOCKSIZE..p * BLOCKSIZE + BLOCKSIZE], skip, data))
         == Splice(bytes, p * BLOCKSIZE + skip, data)
  {
  }

  lemma SpliceAll(blk: seq<byte>, data: seq<byte>)
    requires |data| == |blk|
    ensures Splice(blk, 0, data) == data
  {
  }

  lemma FlatBlock(s: Fs, i: nat, p: nat)
    requires i < |s.disk| && p < FILEBLOCKS
    ensures Flat(s, i)[p * BLOCKSIZE..p * BLOCKSIZE + BLOCKSIZE] == BlockOf(s, i, p)
  {
    hide BlockOf;
    var w := Flat(s, i)[p * BLOCKSIZE..p * BLOCKSIZE + BLOCKSIZE];
    forall k | 0 <= k < BLOCKSIZE
      ensures w[k] == BlockOf(s, i, p)[k]
    {
      assert (p * BLOCKSIZE + k) / BLOCKSIZE == p && (p * BLOCKSIZE + k) % BLOCKSIZE == k;
    }
  }

  lemma SlotUsed(s: Fs, i: nat, p: nat)
    requires Core(s) && Live(s, i) && p < FILEBLOCKS && Slot(s, i, p) != 0
    ensures Slot(s, i, p) < s.super.nblocks && s.owner[Slot(s, i, p)] == Data(i, p)
  {
    hide IsSet, Ino, Slot;
    assert MapsOwned(s, i);
  }

  lemma PutEntryIs(blk: Block, k: nat, w: u32)
    requires k < WORDS_PER_BLOCK
    ensures PutEntry(blk, k, w) == PutWords(GetWords(blk)[k := w])
  {
  }

  lemma EntrySlot(s: Fs, i: nat, p: nat)
    requires Core(s) && Live(s, i) && NDIRECT <= p < FILEBLOCKS
    ensures Ino(s, i).indirect == 0 ==> Slot(s, i, p) == 0
    ensures Ino(s, i).indirect != 0 ==>
      Ino(s, i).indirect < |s.disk| && Slot(s, i, p) == GetWords(s.disk[Ino(s, i).indirect])[p - NDIRECT]
  {
    hide IsSet, WordAt, GetInode, Clean;
    assert MapsOwned(s, i);
  }

  lemma CachedLive(s: Fs, i: nat)
    requires Core(s) && i in s.vnodes
    ensures Live(s, i) && i < s.super.nblocks <= |s.disk| && i in ViewOf(s)
    ensures |ViewOf(s)[i].bytes| == MAXFILE && ViewOf(s)[i].bytes == Flat(s, i)
    ensures ViewOf(s)[i] ==
      FileView(s.vnodes[i].inode.size, s.vnodes[i].inode.typ, s.vnodes[i].inode.links, s.vnodes[i].refs, Flat(s, i))
  {
  }

  lemma SlotBlock(s: Fs, i: nat, p: nat)
    requires Core(s) && Live(s, i) && p < FILEBLOCKS
    ensures Slot(s, i, p) != 0 ==> Slot(s, i, p) < s.super.nblocks && BlockOf(s, i, p) == s.disk[Slot(s, i, p)]
    ensures Slot(s, i, p) == 0 ==> BlockOf(s, i, p) == Zeros(BLOCKSIZE)
    ensures i in ViewOf(s)
  {
    hide IsSet, Ino, Slot, Clean;
    assert MapsOwned(s, i);
  }

  lemma FlatPart(s: Fs, i: nat, p: nat, skip: nat, len: nat)
    requires i < |s.disk| && p < FILEBLOCKS && skip + len <= BLOCKSIZE
    ensures Flat(s, i)[p * BLOCKSIZE + skip..p * BLOCKSIZE + skip + len] == BlockOf(s, i, p)[skip..skip + len]
  {
    hide BlockOf, Flat;
    FlatBlock(s, i, p);
    var f := Flat(s, i);
    assert f[p * BLOCKSIZE..p * BLOCKSIZE + BLOCKSIZE][skip..skip + len] ==
      f[p * BLOCKSIZE + skip..p * BLOCKSIZE + skip + len];
  }

  /** Writing back a block with `data` spliced in writes `data` into the file. */
  lemma PutInBlock(s: Fs, i: nat, p: nat, skip: nat, data: seq<byte>)
    requires i in ViewOf(s) && p < FILEBLOCKS && skip + |data| <= BLOCKSIZE
    ensures BlockView(ViewOf(s), i, p, Splice(BlockOf(s, i, p), skip, data)) ==
      PutBytes(ViewOf(s), i, p * BLOCKSIZE + skip, data)
  {
    hide BlockOf, Flat, Splice;
    FlatBlock(s, i, p);
    SpliceInBlock(Flat(s, i), p, skip, data);
    if data == [] {
      SpliceNothing(Flat(s, i), p * BLOCKSIZE + skip);
    }
  }

  /** `mem` after the file bytes [o, to) have been copied to it from index `base` on. */
  ghost function ReadInto(mem: seq<byte>, base: nat, file: seq<byte>, o: nat, to: nat): seq<byte> {
    if o < to <= |file| && base + (to - o) <= |mem| then Splice(mem, base, file[o..to]) else mem
  }

  lemma ReadStep(mem: seq<byte>, base: nat, file: seq<byte>, o: nat, a: nat, b: nat)
    requires o <= a <= b <= |file| && base + (b - o) <= |mem|
    ensures |ReadInto(mem, base, file, o, a)| == |mem|
    ensures Splice(ReadInto(mem, base, file, o, a), base + (a - o), file[a..b]) == ReadInto(mem, base, file, o, b)
  {
    hide Splice;
    SpliceTwice(mem, base, file[o..a], file[a..b]);
    assert file[o..a] + file[a..b] == file[o..b];
    assert file[o..o] == [];
    SpliceNothing(mem, base);
    SpliceNothing(ReadInto(mem, base, file, o, a), base + (a - o));
  }

  lemma WriteStep(v: View, i: nat, o: nat, mem: seq<byte>, base0: nat, a: nat, b: nat)
    requires i in v && |v[i].bytes| == MAXFILE && base0 <= a <= b <= |mem| && (a < b ==> o + (b - base0) <= MAXFILE)
    requires base0 < a ==> o + (a - base0) <= MAXFILE
    ensures PutBytes(PutBytes(v, i, o, mem[base0..a]), i, o + (a - base0), mem[a..b]) ==
      PutBytes(v, i, o, mem[base0..b])
  {
    PutBytesTwice(v, i, o, mem[base0..a], mem[a..b]);
    assert mem[base0..a] + mem[a..b] == mem[base0..b];
  }

  lemma ReadNothing(mem: seq<byte>, base: nat, file: seq<byte>, o: nat)
    ensures ReadInto(mem, base, file, o, o) == mem
  {
  }

  /** The blocks a transfer of `n` bytes touches at most. */
  function Touched(n: nat): nat {
    n / BLOCKSIZE + 2
  }

  /** A range of bytes inside one block, but not all of it. */
  predicate InBlock(o: nat, n: nat) {
    n < BLOCKSIZE && o % BLOCKSIZE + n <= BLOCKSIZE
  }

  /** The same, in a block a file can have. */
  predicate InOneBlock(o: nat, n: nat) {
    InBlock(o, n) && o / BLOCKSIZE < FILEBLOCKS
  }

  /** Where a read of `n` bytes at `o` stops. */
  function ReadEnd(size: nat, o: nat, n: nat): nat {
    if o >= size then o else if o + n > size then size else o + n
  }

  /** A read fails if it would go past the largest file, or if it starts there in the middle of a block. */
  predicate ReadFails(size: nat, o: nat, n: nat) {
    o < size && ReadEnd(size, o, n) > MAXFILE && (n > 0 || o % BLOCKSIZE != 0)
  }

  /** How far a read gets: to its end, or to the end of the largest file. */
  function ReadStop(size: nat, o: nat, n: nat): nat {
    var end := ReadEnd(size, o, n);
    if end <= MAXFILE then end else if o < MAXFILE then MAXFILE else o
  }

  /** The files after a write of `data` at `at` into file `i`. */
  ghost function WriteView(v: View, i: nat, at: nat, data: seq<byte>): View
    requires i in v && |v[i].bytes| == MAXFILE && (data == [] || at + |data| <= MAXFILE)
  {
    var w := PutBytes(v, i, at, data);
    if at + |data| > v[i].size then w[i := w[i].(size := at + |data|)] else w
  }

  lemma PutNothing(v: View, i: nat, at: nat)
    requires i in v && |v[i].bytes| == MAXFILE
    ensures PutBytes(v, i, at, []) == v
  {
  }

  lemma PutKeepsMeta(v: View, i: nat, at: nat, data: seq<byte>)
    requires i in v && |v[i].bytes| == MAXFILE && (data == [] || at + |data| <= MAXFILE)
    ensures i in PutBytes(v, i, at, data)
      && PutBytes(v, i, at, data)[i] == v[i].(bytes := PutBytes(v, i, at, data)[i].bytes)
  {
  }

  /** What adding a name to a directory may return: each error just when the name, the directory or the disk is in the
      way.  A new entry takes two blocks at most. */
  ghost predicate LinkResult(names: map<Name, nat>, room: nat, name: Name, err: Errno) {
    && err in {EOK, EEXIST, ENAMETOOLONG, EINVAL, ENOSPC}
    && (err == EEXIST <==> name in names)
    && (err == ENAMETOOLONG <==> name !in names && |name| >= NAMELEN)
    && (err == EINVAL <==> name !in names && |name| < NAMELEN && |names| == MAXENTRIES)
    && (err == ENOSPC ==> room <= 1)
  }

  lemma FullRoom(s: Fs)
    requires Core(s) && DiskFull(s)
    ensures Room(s.owner) == 0
  {
    hide Core;
    RoomLeft(s);
  }

  /** No block is free. */
  ghost predicate DiskFull(s: Fs) {
    s.super.nblocks <= |s.owner| && forall c :: 0 <= c < s.super.nblocks ==> s.owner[c] != Free
  }

  lemma MapsNothing()
    ensures GetWords(Zeros(BLOCKSIZE)) == NoBlocks(DBPERIDB)
  {
    ZeroWords(WORDS_PER_BLOCK);
    assert BLOCKSIZE == 4 * WORDS_PER_BLOCK;
  }

  lemma CutFacts(s: Fs, s0: Fs, i: nat, lo: nat, hi: nat)
    requires Cut(s, s0, i, lo, hi)
    ensures Core(s) && i in s.vnodes && s.super == s0.super && |s.freemap| * 8 == |s.owner|
    ensures Live(s, i) && i < s.super.nblocks <= |s.disk| && |s.owner| == BitmapSize(s.super.nblocks)
    ensures forall p :: 0 <= p < NDIRECT ==> Slot(s, i, p) == s.vnodes[i].inode.direct[p]
    ensures Ino(s, i) == s.vnodes[i].inode
  {
    hide Owned, Clean, ViewOf;
  }

  lemma SlotMarked(s: Fs, i: nat, p: nat)
    requires Core(s) && Live(s, i) && p < FILEBLOCKS && Slot(s, i, p) != 0
    ensures Slot(s, i, p) < |s.owner| && |s.owner| == 8 * |s.freemap| && IsSet(s.freemap, Slot(s, i, p))
  {
    hide IsSet, Ino, Slot, Clean;
    assert MapsOwned(s, i);
    assert BlockOwned(s, Slot(s, i, p));
  }

  lemma CutDoneFacts(s: Fs, s0: Fs, i: nat, lo: nat)
    requires CutDone(s, s0, i, lo)
    ensures Core(s) && i in s.vnodes && s.super == s0.super
  {
  }

  lemma IndirectMarked(s: Fs, i: nat)
    requires Core(s) && Live(s, i) && Ino(s, i).indirect != 0
    ensures Ino(s, i).indirect < |s.owner| && |s.owner| == 8 * |s.freemap| && IsSet(s.freemap, Ino(s, i).indirect)
    ensures Ino(s, i).indirect < s.super.nblocks
  {
    hide IsSet, Ino, Slot, Clean;
    assert MapsOwned(s, i);
    assert BlockOwned(s, Ino(s, i).indirect);
  }

  /** The buffered indirect block is what the file system would have on disk after write-back. */
  lemma BufferSlot(g: Fs, i: nat, j: nat, idbuf: seq<u32>)
    requires Core(g) && i in g.vnodes && j < DBPERIDB && |idbuf| == DBPERIDB
    requires g.vnodes[i].inode.indirect != 0 && g.vnodes[i].inode.indirect < |g.disk|
    requires g.disk[g.vnodes[i].inode.indirect] == PutWords(idbuf)
    ensures i < |g.disk| && Slot(g, i, NDIRECT + j) == idbuf[j]
  {
    hide PutWords, WordAt, Owned, Clean;
    WordsRoundTrip(idbuf);
    assert GetWords(PutWords(idbuf))[j] == idbuf[j];
  }

  lemma BufferFree(g: Fs, i: nat, j: nat, idbuf: seq<u32>)
    requires Core(g) && i in g.vnodes && j < DBPERIDB && |idbuf| == DBPERIDB
    requires g.vnodes[i].inode.indirect != 0 && g.vnodes[i].inode.indirect < |g.disk|
    requires g.disk[g.vnodes[i].inode.indirect] == PutWords(idbuf)
    ensures PutEntry(g.disk[g.vnodes[i].inode.indirect], j, 0) == PutWords(idbuf[j := 0])
  {
    hide PutWords, WordAt, Owned, Clean;
    WordsRoundTrip(idbuf);
  }

  lemma EntriesLeft(g: Fs, s0: Fs, i: nat, lo: nat, idbuf: seq<u32>)
    requires Cut(g, s0, i, lo, FILEBLOCKS) && lo < FILEBLOCKS && |idbuf| == DBPERIDB
    requires g.vnodes[i].inode.indirect != 0 && g.vnodes[i].inode.indirect < |g.disk|
    requires g.disk[g.vnodes[i].inode.indirect] == PutWords(idbuf)
    ensures i < |s0.disk|
    ensures DropsIndirect(s0, i, lo) <==> forall k :: 0 <= k < DBPERIDB ==> idbuf[k] == 0
  {
    hide PutWords, WordAt, Owned, Clean, ViewOf, Slot;
    forall k | 0 <= k < DBPERIDB
      ensures Slot(g, i, NDIRECT + k) == idbuf[k]
    {
      BufferSlot(g, i, k, idbuf);
    }
    if forall k :: 0 <= k < DBPERIDB ==> idbuf[k] == 0 {
      forall q | NDIRECT <= q < FILEBLOCKS && q < lo
        ensures Slot(s0, i, q) == 0
      {
        assert Slot(g, i, NDIRECT + (q - NDIRECT)) == idbuf[q - NDIRECT];
      }
    }
    if DropsIndirect(s0, i, lo) {
      forall k | 0 <= k < DBPERIDB
        ensures idbuf[k] == 0
      {
        assert Slot(g, i, NDIRECT + k) == idbuf[k];
      }
    }
  }

  lemma NothingLeft(s: Fs, s0: Fs, i: nat, lo: nat, blocklen: nat)
    requires Cut(s, s0, i, lo, NDIRECT) && lo == KeptBlocks(blocklen) && i < |s.disk| && i < |s0.disk|
    requires blocklen >= FILEBLOCKS - 1 || s.vnodes[i].inode.indirect == 0
    ensures forall q :: NDIRECT <= q < FILEBLOCKS && lo <= q ==> Slot(s, i, q) == 0
    ensures !DropsIndirect(s0, i, lo)
  {
    hide Owned, Clean, ViewOf;
  }

  lemma LiveFacts(s: Fs, i: nat)
    requires Core(s) && Live(s, i)
    ensures i < s.super.nblocks <= |s.disk| && i in ViewOf(s) && |ViewOf(s)[i].bytes| == MAXFILE
  {
    hide Owned, Clean;
  }

  lemma TableLive(s: Fs, k: nat)
    requires Core(s) && k < |s.table|
    ensures s.table[k] in s.vnodes && Live(s, s.table[k])
  {
    hide Owned, Clean;
  }

  lemma InTable(s: Fs, i: nat)
    requires Core(s) && i in s.vnodes
    ensures exists k :: 0 <= k < |s.table| && s.table[k] == i
  {
    hide Owned, Clean;
    assert i in s.table;
  }

  lemma NotInTable(s: Fs, i: nat)
    requires Core(s) && forall k :: 0 <= k < |s.table| ==> s.table[k] != i
    ensures i !in s.vnodes
  {
    hide Owned, Clean;
  }

  lemma InodeMarked(s: Fs, i: nat)
    requires Core(s) && Live(s, i)
    ensures i < |s.owner| && |s.owner| == 8 * |s.freemap| == BitmapSize(s.super.nblocks) && IsSet(s.freemap, i)
  {
    hide IsSet, Ino, Slot, Clean;
    assert BlockOwned(s, i);
  }

  lemma CutToNothing(s: Fs, s0: Fs, i: nat)
    requires CutMaps(s, s0, i, 0)
    ensures Core(s) && i in s.vnodes && i < |s.disk| && s.table == s0.table && s.super == s0.super
    ensures s.vnodes[i].inode.indirect == 0 && forall q :: 0 <= q < FILEBLOCKS ==> Slot(s, i, q) == 0
    ensures s.vnodes[i].inode.links == s0.vnodes[i].inode.links && s.vnodes[i].refs == s0.vnodes[i].refs
  {
    hide Owned, Clean, Slot;
    TruncateToNothing(s, s0, i);
  }

  lemma SyncMaps(s: Fs, t: Fs, i: nat)
    requires Core(s) && Core(t) && i in s.vnodes && (t == s || t == SyncInode(s, i))
    ensures i in t.vnodes && t.vnodes[i] == s.vnodes[i].(dirty := t.vnodes[i].dirty) && t.table == s.table
      && t.super == s.super
    ensures i < |s.disk| && i < |t.disk| && Live(t, i) && t.vnodes.Keys == s.vnodes.Keys
    ensures (forall q :: 0 <= q < FILEBLOCKS ==> Slot(s, i, q) == 0) && s.vnodes[i].inode.indirect == 0 ==>
              forall q :: 0 <= q < FILEBLOCKS ==> Slot(t, i, q) == 0
  {
    hide Owned, Clean, PutInode, WordAt;
    if (forall q :: 0 <= q < FILEBLOCKS ==> Slot(s, i, q) == 0) && s.vnodes[i].inode.indirect == 0 {
      forall q | 0 <= q < FILEBLOCKS
        ensures Slot(t, i, q) == 0
      {
        assert Slot(s, i, q) == 0;
      }
    }
  }

  lemma RefsPositive(s: Fs, i: nat)
    requires Core(s) && i in s.vnodes
    ensures s.vnodes[i].refs > 0
  {
  }

  lemma RootFacts(s: Fs)
    requires Core(s) && DirOk(ViewOf(s))
    ensures ROOT_LOCATION in ViewOf(s) && Live(s, ROOT_LOCATION) && ROOT_LOCATION < |s.disk|
    ensures var d := ViewOf(s)[ROOT_LOCATION];
            d.bytes == Flat(s, ROOT_LOCATION) && |d.bytes| == MAXFILE && d.size == NEnt(d) * DIRSIZE <= MAXFILE
              && NEnt(d) <= MAXENTRIES
            && IsDir(d) && d.links > 0 && d.size == Ino(s, ROOT_LOCATION).size
    ensures NamesUnique(ViewOf(s)[ROOT_LOCATION])
    ensures ROOT_LOCATION in s.vnodes ==> s.vnodes[ROOT_LOCATION].inode.size == ViewOf(s)[ROOT_LOCATION].size
    ensures ROOT_LOCATION in s.vnodes ==> s.vnodes[ROOT_LOCATION].inode.links > 0
  {
    hide Owned, Clean, Flat;
    NEntBound(ViewOf(s)[ROOT_LOCATION]);
  }

  lemma ReadWhole(mem: seq<byte>, file: seq<byte>, o: nat)
    requires |mem| == DIRSIZE && o + DIRSIZE <= |file|
    ensures ReadInto(mem, 0, file, o, o + DIRSIZE) == file[o..o + DIRSIZE]
  {
  }

  /** A slot in use lies in a mapped block: unmapped blocks read as empty slots. */
  lemma UsedMapped(s: Fs, k: nat)
    requires Core(s) && DirOk(ViewOf(s)) && k < NEnt(ViewOf(s)[ROOT_LOCATION]) && Used(ViewOf(s)[ROOT_LOCATION], k)
    ensures ROOT_LOCATION < |s.disk| && k * DIRSIZE / BLOCKSIZE < FILEBLOCKS
    ensures Slot(s, ROOT_LOCATION, k * DIRSIZE / BLOCKSIZE) != 0
  {
    hide Core, Slot, ViewOf, DirOk, Flat;
    RootFacts(s);
    var p := k * DIRSIZE / BLOCKSIZE;
    var at := k * DIRSIZE - p * BLOCKSIZE;
    if Slot(s, ROOT_LOCATION, p) == 0 {
      SlotBlock(s, ROOT_LOCATION, p);
      FlatPart(s, ROOT_LOCATION, p, at, DIRSIZE);
      assert Zeros(BLOCKSIZE)[at..at + DIRSIZE] == Zeros(DIRSIZE);
      ZeroSlot(ViewOf(s)[ROOT_LOCATION], k);
    }
  }

  lemma ZeroSlot(d: FileView, k: nat)
    requires |d.bytes| == MAXFILE && k < MAXENTRIES && d.bytes[k * DIRSIZE..k * DIRSIZE + DIRSIZE] == Zeros(DIRSIZE)
    ensures !Used(d, k)
  {
  }

  lemma WriteSlot(v: View, slot: nat, e: DirEnt)
    requires DirOk(v) && slot < MAXENTRIES
    ensures WriteView(v, ROOT_LOCATION, slot * DIRSIZE, PutDir(e)) == WithRoot(v, SetSlot(v[ROOT_LOCATION], slot, e))
  {
    hide Splice, PutDir, NamesUnique, LinksTo;
  }

  lemma WriteNoSlot(v: View, slot: nat)
    requires DirOk(v) && slot <= NEnt(v[ROOT_LOCATION])
    ensures WriteView(v, ROOT_LOCATION, slot * DIRSIZE, []) == v
  {
    hide Splice, NamesUnique, LinksTo;
    NEntBound(v[ROOT_LOCATION]);
  }

  lemma ViewLive(s: Fs, i: nat)
    requires Core(s) && i in ViewOf(s)
    ensures Live(s, i) && (i !in s.vnodes ==> ViewOf(s)[i].refs == 0)
    ensures i in s.vnodes ==> ViewOf(s)[i].refs == s.vnodes[i].refs
  {
  }

  /** One more reference to a file. */
  lemma RefView(v: View, i: nat)
    requires DirOk(v) && i in v
    ensures var w := v[i := v[i].(refs := v[i].refs + 1)];
            DirOk(w) && AbsOf(w) == AddRef(AbsOf(v), i) && w[ROOT_LOCATION].bytes == v[ROOT_LOCATION].bytes
            && w[ROOT_LOCATION].size == v[ROOT_LOCATION].size && w[ROOT_LOCATION].typ == v[ROOT_LOCATION].typ
    ensures NEnt(v[i := v[i].(refs := v[i].refs + 1)][ROOT_LOCATION]) == NEnt(v[ROOT_LOCATION]) <= MAXENTRIES
    ensures forall k :: 0 <= k < MAXENTRIES ==>
              Entry(v[i := v[i].(refs := v[i].refs + 1)][ROOT_LOCATION], k) == Entry(v[ROOT_LOCATION], k)
              && NameAt(v[i := v[i].(refs := v[i].refs + 1)][ROOT_LOCATION], k) == NameAt(v[ROOT_LOCATION], k)
  {
    hide DirMap, SetSlot, Entry, NameAt, LinksTo, NamesUnique;
    AbsChange(v, i, v[i].(refs := v[i].refs + 1));
    SameEntries(v[ROOT_LOCATION], v[i := v[i].(refs := v[i].refs + 1)][ROOT_LOCATION]);
  }

  lemma NblocksBound(s: Fs)
    requires Core(s)
    ensures s.super.nblocks <= MAXBLOCKS
  {
  }

  lemma HeldCached(s: Fs, i: nat)
    requires Core(s) && i in ViewOf(s) && ViewOf(s)[i].refs > 0
    ensures i in s.vnodes
  {
  }

  lemma SlotLinks(v: View, k: nat, name: Name, i: u32)
    requires DirOk(v) && i in v && |name| < NAMELEN && k < MAXENTRIES
    ensures var w := WithRoot(v, SetSlot(v[ROOT_LOCATION], k, NewEntry(name, i)));
            i in w && w[i].links == v[i].links && LinkView(v, k, name, i) == w[i := w[i].(links := v[i].links + 1)]
  {
    hide DirMap, Entry, NameAt, LinksTo, NamesUnique, Splice, PutDir, NewEntry;
  }

  lemma RootHeld(s: Fs)
    requires Core(s) && DirOk(ViewOf(s)) && AbsOf(ViewOf(s)).files[ROOT_LOCATION].refs > 0
    ensures ROOT_LOCATION in s.vnodes
  {
    hide DirMap, NamesUnique, LinksTo, Entry, Owned, Clean, Flat;
  }

  /** The files after a write, as users see them. */
  ghost function Written(a: AbsFs, i: nat, at: nat, data: seq<byte>): AbsFs {
    if i in a.files && |a.files[i].bytes| == MAXFILE && (data == [] || at + |data| <= MAXFILE)
    then a.(files := WriteView(a.files, i, at, data))
    else a
  }

  lemma WrittenView(v: View, i: nat, at: nat, data: seq<byte>)
    requires DirOk(v) && i in v && i != ROOT_LOCATION && (data == [] || at + |data| <= MAXFILE) && v[i].refs > 0
    ensures DirOk(WriteView(v, i, at, data)) && AbsOf(WriteView(v, i, at, data)) == Written(AbsOf(v), i, at, data)
  {
    hide DirMap, LinksTo, NamesUnique, Entry, Splice;
    var w := WriteView(v, i, at, data);
    AbsChange(v, i, w[i]);
    assert w == v[i := w[i]];
  }

  lemma CutMapsTables(s: Fs, s0: Fs, i: nat, lo: nat)
    requires CutMaps(s, s0, i, lo)
    ensures s.super == s0.super && |s.disk| == |s0.disk| && s.table == s0.table && s.vnodes.Keys == s0.vnodes.Keys
  {
  }

  /** The slot a new name went to is not the slot of the old name, which is still in use. */
  lemma OtherSlot(v: View, slot1: nat, slot2: nat, name: Name, i: u32)
    requires DirOk(v) && i in v && |name| < NAMELEN && slot2 < MAXENTRIES
    requires slot1 < NEnt(v[ROOT_LOCATION]) && Used(v[ROOT_LOCATION], slot1)
    requires slot2 <= NEnt(v[ROOT_LOCATION]) && (slot2 < NEnt(v[ROOT_LOCATION]) ==> !Used(v[ROOT_LOCATION], slot2))
    ensures var d := LinkView(v, slot2, name, i)[ROOT_LOCATION];
            && |d.bytes| == MAXFILE && slot1 < NEnt(d) <= MAXENTRIES && Used(d, slot1)
            && Entry(d, slot1) == Entry(v[ROOT_LOCATION], slot1) && NameAt(d, slot1) == NameAt(v[ROOT_LOCATION], slot1)
  {
    hide SetSlot, CStr, Entry, NameAt, LinksTo, NamesUnique, DirMap, NewEntry;
    var d, e := v[ROOT_LOCATION], NewEntry(name, i);
    SlotTyp(d, slot2, e);
    SlotIsSet(LinkView(v, slot2, name, i)[ROOT_LOCATION], d, slot2, e);
  }

  /** Only the root is a directory. */
  /** Every inode on a consistent disk is a file or a directory. */
  lemma KnownType(s: Fs, i: nat)
    requires Core(s) && DirOk(ViewOf(s)) && Live(s, i)
    ensures i < |s.disk| && (i !in s.vnodes ==> GetInode(s.disk[i]).typ in {TYPE_FILE, TYPE_DIR})
  {
    hide Owned, Clean, Flat, GetInode, NamesUnique, LinksTo, Entry;
    assert i in ViewOf(s);
  }

  lemma TypeOf(s: Fs, i: nat)
    requires Core(s) && DirOk(ViewOf(s)) && i in s.vnodes
    ensures s.vnodes[i].inode.typ == TYPE_DIR <==> i == ROOT_LOCATION
    ensures i in AbsOf(ViewOf(s)).files
  {
    CachedLive(s, i);
    hide Core, ViewOf, DirMap, LinksTo, NamesUnique, Entry, Flat, Owned, Clean;
  }

  lemma RefUnref(a: AbsFs, i: nat)
    requires i in a.files && a.files[i].links > 0
    ensures DropRef(AddRef(a, i), i) == a
  {
  }

  /** Adding the new name, dropping the old one and letting go is a rename. */
  lemma RenameSteps(a: AbsFs, b: AbsFs, n1: Name, n2: Name, i: nat)
    requires n1 in a.names && a.names[n1] == i && i in a.files && a.files[i].links > 0 && n2 !in a.names
    requires b.names == AddLink(AddRef(a, i), n2, i).names - {n1}
    requires b.files == AddRef(a, i).files
    ensures i in b.files && b.files[i].refs > 0 && DropRef(b, i) == Renamed(a, n1, n2)
  {
    assert DropRef(b, i).files == a.files;
  }

  lemma InoNonzero(v: View, i: nat)
    requires DirOk(v) && i in v
    ensures i != NOINO
  {
    hide DirMap, Entry, NameAt, LinksTo, NamesUnique;
  }

  class SfsFs {
    var super: Super
    var superDirty: bool
    /** The device, block by block. */
    var disk: seq<Block>
    const freemap: BitmapObj
    var mapDirty: bool
    var vnodes: map<nat, Vnode>
    var table: seq<nat>
    ghost var owner: seq<Owner>

    ghost function S(): Fs
      reads this, freemap.v
    {
      Fs(super, superDirty, disk, freemap.v[..], mapDirty, vnodes, table, owner)
    }

    ghost predicate Valid()
      reads this, freemap.v
    {
      && Core(S())
      && freemap.nbits == BitmapSize(super.nblocks)
      && freemap.Valid()
    }

    constructor (disk: seq<Block>, super: Super, freemap: BitmapObj, ghost owner: seq<Owner>)
      ensures this.freemap == freemap
      ensures S() == Fs(super, false, disk, freemap.v[..], false, map[], [], owner)
    {
      this.disk, this.super, this.freemap, this.owner := disk, super, freemap, owner;
      superDirty, mapDirty, vnodes, table := false, false, map[], [];
    }

    // -------------------------------------------------------------- space allocation

    /** At most `n` free blocks were used up, and none became free. */
    twostate predicate Spent(n: int)
      reads this
    {
      Room(owner) <= old(Room(owner)) <= Room(owner) + n
    }

    /** sfs_balloc: the least free block, marked and cleared, or ENOSPC exactly when there is none.
        The invalid-block panic cannot happen. */
    method Balloc(ghost o: Owner) returns (err: Errno, b: nat)
      requires Valid() && o != Free
      modifies this, freemap.v
      ensures freemap.Valid() && super == old(super)
      ensures err == EOK || err == ENOSPC
      ensures err == ENOSPC ==> S() == old(S()) && DiskFull(S()) && Room(owner) == 0
      ensures err == EOK ==>
        FreeBlock(old(S()), b) && S() == Take(old(S()), b, o) && Room(owner) + 1 == old(Room(owner))
      ensures err == EOK ==> forall c :: 0 <= c < b ==> old(owner[c]) != Free
    {
      hide IsSet, Ino, Slot, Clean;
      ghost var s := S();
      var ok;
      ok, b := freemap.Alloc();
      if !ok {
        forall c | 0 <= c < super.nblocks
          ensures owner[c] != Free
        {
          assert BlockOwned(s, c);
        }
        RoomLeft(s);
        return ENOSPC, b;
      }
      mapDirty := true;
      assert BlockOwned(s, b);
      assert b < super.nblocks;
      disk := disk[b := Zeros(BLOCKSIZE)];
      RoomTake(owner, b, o);
      owner := owner[b := o];
      forall c | 0 <= c < b
        ensures s.owner[c] != Free
      {
        assert BlockOwned(s, c);
      }
      err := EOK;
    }

    /** sfs_bfree */
    method Bfree(b: nat)
      requires freemap.Valid() && b < freemap.nbits == |owner| && IsSet(freemap.v[..], b)
      modifies this, freemap.v
      ensures freemap.Valid()
      ensures b < 8 * |old(S().freemap)| && S() == Give(old(S()), b)
    {
      freemap.UnmarkBit(b);
      mapDirty := true;
      owner := owner[b := Free];
    }

    /** sfs_bused */
    method Bused(b: nat) returns (used: bool)
      requires Valid() && b < super.nblocks
      ensures used <==> owner[b] != Free
    {
      hide Bits.Bit, Ino, Slot, Clean;
      assert BlockOwned(S(), b);
      used := Bits.Bit(freemap.v[b / 8], b % 8);
    }

    // -------------------------------------------------------------- block mapping

    /** Nothing a caller of sfs_bmap can see has changed. */
    twostate predicate Unseen()
      reads this, freemap.v
      requires old(Valid())
    {
      && Valid() && ViewOf(S()) == old(ViewOf(S()))
      && super == old(super) && |disk| == old(|disk|) && table == old(table) && vnodes.Keys == old(vnodes.Keys)
    }

    /** The direct-block half of sfs_bmap. */
    method BmapDirect(i: nat, p: nat, doalloc: bool) returns (err: Errno, block: nat)
      requires Valid() && i in vnodes && p < NDIRECT
      modifies this, freemap.v
      ensures Unseen() && (err == EOK || err == ENOSPC)
      ensures Spent(1) && (err == ENOSPC ==> old(Room(owner)) <= 0)
      ensures err == ENOSPC ==> doalloc && DiskFull(S())
      ensures err == EOK ==> block == Slot(S(), i, p) && (doalloc ==> block != 0)
      ensures !doalloc || old(Slot(S(), i, p)) != 0 ==> S() == old(S()) && err == EOK
    {
      hide IsSet, GetInode, WordAt, Clean, Owned;
      ghost var s := S();
      block := vnodes[i].inode.direct[p];
      if block == 0 && doalloc {
        err, block := Balloc(Data(i, p));
        if err != EOK {
          return;
        }
        var n := vnodes[i].inode;
        vnodes := vnodes[i := vnodes[i].(inode := n.(direct := n.direct[p := block]), dirty := true)];
        AllocDirectKeeps(s, i, p, block);
        FreeBlockApart(s, block);
      }
      if block != 0 {
        SlotUsed(S(), i, p);
        var used := Bused(block);
        assert used;
      }
      err := EOK;
    }

    /** The indirect block of a file, loaded or (on demand) allocated. */
    method LoadIndirect(i: nat, doalloc: bool) returns (err: Errno, idblock: nat, idbuf: seq<u32>)
      requires Valid() && i in vnodes && (doalloc || vnodes[i].inode.indirect != 0)
      modifies this, freemap.v
      ensures Unseen() && (err == EOK || err == ENOSPC)
      ensures Spent(1) && (err == ENOSPC ==> old(Room(owner)) <= 0)
      ensures err == ENOSPC ==> doalloc && DiskFull(S())
      ensures err == EOK ==> i in vnodes && idblock == vnodes[i].inode.indirect != 0 && idblock < |disk|
      ensures err == EOK ==> idbuf == GetWords(disk[idblock])
      ensures old(vnodes[i].inode.indirect) != 0 ==> S() == old(S()) && err == EOK
      ensures err == ENOSPC ==> S() == old(S())
    {
      hide IsSet, GetInode, WordAt, Clean, Owned, PutEntry, Slot, Room, DiskFull, ViewOf,
        GetWords, NoBlocks;
      ghost var s := S();
      idblock := vnodes[i].inode.indirect;
      idbuf := [];
      if idblock == 0 {
        err, idblock := Balloc(Indirect(i));
        if err != EOK {
          return;
        }
        vnodes := vnodes[i := vnodes[i].(inode := vnodes[i].inode.(indirect := idblock), dirty := true)];
        idbuf := NoBlocks(DBPERIDB);
        AllocIndirectKeeps(s, i, idblock);
        FreeBlockApart(s, idblock);
        MapsNothing();
      } else {
        IndirectApart(s, i);
        idbuf := GetWords(disk[idblock]);
      }
      err := EOK;
    }

    /** A data block for an empty entry of the loaded indirect block. */
    method AddEntry(i: nat, p: nat, idblock: nat, idbuf: seq<u32>) returns (err: Errno, block: nat)
      requires Valid() && i in vnodes && NDIRECT <= p < FILEBLOCKS && Slot(S(), i, p) == 0
      requires idblock == vnodes[i].inode.indirect != 0 && idblock < |disk| && idbuf == GetWords(disk[idblock])
      modifies this, freemap.v
      ensures Unseen() && (err == EOK || err == ENOSPC)
      ensures Spent(1) && (err == ENOSPC ==> old(Room(owner)) <= 0)
      ensures err == ENOSPC ==> DiskFull(S())
      ensures err == EOK ==> block == Slot(S(), i, p) != 0
    {
      hide IsSet, Slot, Clean, Owned, PutEntry, GetInode;
      ghost var s := S();
      err, block := Balloc(Data(i, p));
      if err != EOK {
        return;
      }
      AllocEntryKeeps(s, i, p, block);
      FreeBlockApart(s, block);
      var buf := idbuf[p - NDIRECT := block];
      PutEntryIs(s.disk[idblock], p - NDIRECT, block);
      IndirectApart(s, i);
      disk := disk[idblock := PutWords(buf)];
      assert S() == AllocEntry(s, i, p, block);
    }

    /** The indirect-block half of sfs_bmap. */
    method BmapIndirect(i: nat, p: nat, doalloc: bool) returns (err: Errno, block: nat)
      requires Valid() && i in vnodes && NDIRECT <= p < FILEBLOCKS
      modifies this, freemap.v
      ensures Unseen() && (err == EOK || err == ENOSPC)
      ensures Spent(2) && (err == ENOSPC ==> old(Room(owner)) <= 1)
      ensures err == ENOSPC ==> doalloc && DiskFull(S())
      ensures err == EOK ==> block == Slot(S(), i, p) && (doalloc ==> block != 0)
      ensures !doalloc || old(Slot(S(), i, p)) != 0 ==> S() == old(S()) && err == EOK
    {
      hide Core, Slot, ViewOf, GetWords;
      CachedLive(S(), i);
      EntrySlot(S(), i, p);
      if vnodes[i].inode.indirect == 0 && !doalloc {
        return EOK, 0;
      }
      var idblock, idbuf;
      err, idblock, idbuf := LoadIndirect(i, doalloc);
      if err != EOK {
        return err, 0;
      }
      CachedLive(S(), i);
      EntrySlot(S(), i, p);
      block := idbuf[p - NDIRECT];
      if block == 0 && doalloc {
        err, block := AddEntry(i, p, idblock, idbuf);
        if err != EOK {
          return err, 0;
        }
      }
      if block != 0 {
        CachedLive(S(), i);
        SlotUsed(S(), i, p);
        var used := Bused(block);
        assert used;
      }
      err := EOK;
    }

    /** sfs_bmap: the disk block behind a file block.  It fails exactly past the largest file block or
        when a block is needed and the disk is full, and never changes the contents of any file.
        The "marked free" panics cannot happen. */
    method Bmap(i: nat, fileblock: nat, doalloc: bool) returns (err: Errno, diskblock: nat)
      requires Valid() && i in vnodes
      modifies this, freemap.v
      ensures Unseen()
      ensures Spent(2) && (err == ENOSPC ==> old(Room(owner)) <= 1)
      ensures err in {EOK, EINVAL, ENOSPC}
      ensures err == EINVAL <==> fileblock >= FILEBLOCKS
      ensures err == ENOSPC ==> doalloc && DiskFull(S())
      ensures err == EOK ==> diskblock == Slot(S(), i, fileblock) && (doalloc ==> diskblock != 0)
      ensures !doalloc || err == EINVAL || (fileblock < FILEBLOCKS && old(Slot(S(), i, fileblock)) != 0) ==>
                S() == old(S()) && err != ENOSPC
    {
      diskblock := 0;
      if fileblock < NDIRECT {
        err, diskblock := BmapDirect(i, fileblock, doalloc);
        return;
      }
      var off := fileblock - NDIRECT;
      var idnum := off / DBPERIDB;
      var idoff := off % DBPERIDB;
      if idnum > 0 {
        return EINVAL, 0;
      }
      err, diskblock := BmapIndirect(i, fileblock, doalloc);
    }

    // -------------------------------------------------------------- file I/O

    /** Callers never hand in the freemap's own storage as the transfer area. */
    ghost predicate Apart(uio: UioObj) {
      uio.mem != freemap.v
    }

    /** sfs_partialio: `len` bytes inside one block. */
    method PartialIo(i: nat, uio: UioObj, skip: nat, len: nat) returns (err: Errno)
      requires Valid() && i in vnodes && uio.Valid() && Apart(uio)
      requires skip == uio.offset % BLOCKSIZE && skip + len <= BLOCKSIZE && len <= uio.resid
      modifies this, freemap.v, uio, uio.mem
      ensures Valid() && super == old(super) && |disk| == old(|disk|) && table == old(table)
        && vnodes.Keys == old(vnodes.Keys)
      ensures err in {EOK, EINVAL, ENOSPC}
      ensures Spent(2) && (err == ENOSPC ==> old(Room(owner)) <= 1)
      ensures err == EINVAL <==> old(uio.offset) / BLOCKSIZE >= FILEBLOCKS
      ensures err == ENOSPC ==> uio.rw.Write? && DiskFull(S())
      ensures uio.Advanced(if err == EOK then len else 0)
      ensures uio.rw.Write? ==> uio.mem[..] == old(uio.mem[..])
      ensures uio.rw.Read? ==> S() == old(S())
      ensures uio.rw.Read? && err == EOK ==> old(uio.offset) + len <= MAXFILE
      ensures uio.rw.Read? && err == EOK ==>
                uio.mem[..] == Splice(old(uio.mem[..]), old(uio.base),
                  Flat(S(), i)[old(uio.offset)..old(uio.offset) + len])
      ensures err != EOK ==> ViewOf(S()) == old(ViewOf(S())) && uio.mem[..] == old(uio.mem[..])
      ensures uio.rw.Write? && err == EOK ==> old(uio.offset) + len <= MAXFILE
      ensures uio.rw.Write? && err == EOK ==>
                ViewOf(S()) == PutBytes(old(ViewOf(S())), i, old(uio.offset), old(uio.mem[uio.base..uio.base + len]))
      ensures uio.offset / BLOCKSIZE < FILEBLOCKS && old(Slot(S(), i, uio.offset / BLOCKSIZE)) != 0 ==> err == EOK
      ensures old(uio.offset) / BLOCKSIZE < FILEBLOCKS && old(Slot(S(), i, uio.offset / BLOCKSIZE)) != 0 ==>
        owner == old(owner)
    {
      hide Core, Slot, Splice, Flat, ViewOf, PutBytes;
      CachedLive(S(), i);
      var doalloc := uio.rw.Write?;
      var fileblock := uio.offset / BLOCKSIZE;
      var diskblock;
      err, diskblock := Bmap(i, fileblock, doalloc);
      if err != EOK {
        return;
      }
      TransferPart(i, uio, fileblock, diskblock, skip, len);
    }

    /** The transfer half of sfs_partialio, once the block is known. */
    method TransferPart(i: nat, uio: UioObj, p: nat, diskblock: nat, skip: nat, len: nat)
      requires Valid() && i in vnodes && uio.Valid() && Apart(uio) && p < FILEBLOCKS && diskblock == Slot(S(), i, p)
      requires uio.offset == p * BLOCKSIZE + skip && skip + len <= BLOCKSIZE && len <= uio.resid
      requires uio.rw.Write? ==> diskblock != 0
      modifies this, uio, uio.mem
      ensures Valid() && super == old(super) && |disk| == old(|disk|) && table == old(table)
        && vnodes.Keys == old(vnodes.Keys)
      ensures owner == old(owner) && uio.Advanced(len)
      ensures uio.rw.Read? ==> S() == old(S())
      ensures uio.rw.Read? ==>
                uio.mem[..] == Splice(old(uio.mem[..]), old(uio.base),
                  Flat(S(), i)[old(uio.offset)..old(uio.offset) + len])
      ensures uio.rw.Write? ==> uio.mem[..] == old(uio.mem[..])
      ensures uio.rw.Write? ==>
                ViewOf(S()) == PutBytes(old(ViewOf(S())), i, old(uio.offset), old(uio.mem[uio.base..uio.base + len]))
    {
      hide Core, Slot, Splice, Flat, ViewOf, PutBytes, BlockOf, BlockView;
      CachedLive(S(), i);
      SlotBlock(S(), i, p);
      var blk: Block := if diskblock == 0 then Zeros(BLOCKSIZE) else disk[diskblock];
      var iobuf := new byte[BLOCKSIZE](k requires 0 <= k < BLOCKSIZE => blk[k]);
      assert iobuf[..] == blk;
      ghost var s, base := S(), uio.base;
      uio.Move(iobuf, skip, len);
      if uio.rw.Write? {
        disk := disk[diskblock := iobuf[..]];
        WriteDataKeeps(s, i, p, iobuf[..]);
        PutInBlock(s, i, p, skip, uio.mem[base..base + len]);
      } else {
        FlatPart(s, i, p, skip, len);
      }
    }

    /** sfs_rwblock on a device that does not fail: one whole sector, straight to or from the uio. */
    method RwBlock(uio: UioObj)
      requires freemap.Valid() && uio.Valid() && Apart(uio)
      requires uio.offset % BLOCKSIZE == 0 && uio.resid == BLOCKSIZE && uio.offset / BLOCKSIZE < |disk|
      modifies this`disk, uio, uio.mem
      ensures uio.Advanced(BLOCKSIZE)
      ensures uio.rw.Read? ==> disk == old(disk)
      ensures uio.rw.Read? ==> uio.mem[..] == Splice(old(uio.mem[..]), old(uio.base), disk[old(uio.offset) / BLOCKSIZE])
      ensures uio.rw.Write? ==> uio.mem[..] == old(uio.mem[..])
      ensures uio.rw.Write? ==>
        disk == old(disk)[old(uio.offset) / BLOCKSIZE := uio.mem[old(uio.base)..old(uio.base) + BLOCKSIZE]]
    {
      hide Splice;
      var sector := uio.offset / BLOCKSIZE;
      var blk := disk[sector];
      var buf := new byte[BLOCKSIZE](k requires 0 <= k < BLOCKSIZE => blk[k]);
      assert buf[..] == blk;
      ghost var base := uio.base;
      uio.Move(buf, 0, BLOCKSIZE);
      if uio.rw.Write? {
        SpliceAll(blk, uio.mem[base..base + BLOCKSIZE]);
        disk := disk[sector := buf[..]];
      } else {
        assert buf[0..BLOCKSIZE] == blk;
      }
    }

    /** sfs_blockio: one whole block, aligned. */
    method BlockIo(i: nat, uio: UioObj) returns (err: Errno)
      requires Valid() && i in vnodes && uio.Valid() && Apart(uio)
      requires uio.offset % BLOCKSIZE == 0 && BLOCKSIZE <= uio.resid
      modifies this, freemap.v, uio, uio.mem
      ensures Valid() && super == old(super) && |disk| == old(|disk|) && table == old(table)
        && vnodes.Keys == old(vnodes.Keys)
      ensures err in {EOK, EINVAL, ENOSPC}
      ensures err == EINVAL <==> old(uio.offset) / BLOCKSIZE >= FILEBLOCKS
      ensures err == ENOSPC ==> uio.rw.Write? && DiskFull(S())
      ensures uio.Advanced(if err == EOK then BLOCKSIZE else 0)
      ensures uio.rw.Write? ==> uio.mem[..] == old(uio.mem[..])
      ensures uio.rw.Read? ==> S() == old(S())
      ensures err == EOK ==> old(uio.offset) + BLOCKSIZE <= MAXFILE
      ensures uio.rw.Read? && err == EOK ==>
                uio.mem[..] == Splice(old(uio.mem[..]), old(uio.base),
                  Flat(S(), i)[old(uio.offset)..old(uio.offset) + BLOCKSIZE])
      ensures err != EOK ==> ViewOf(S()) == old(ViewOf(S())) && uio.mem[..] == old(uio.mem[..])
      ensures uio.rw.Write? && err == EOK ==>
                ViewOf(S()) == PutBytes(old(ViewOf(S())), i, old(uio.offset),
                  old(uio.mem[uio.base..uio.base + BLOCKSIZE]))
      ensures Spent(2)
    {
      hide Core, Slot, Splice, Flat, ViewOf, PutBytes, BlockOf, BlockView;
      CachedLive(S(), i);
      var doalloc := uio.rw.Write?;
      var fileblock := uio.offset / BLOCKSIZE;
      var diskblock;
      err, diskblock := Bmap(i, fileblock, doalloc);
      if err != EOK {
        return;
      }
      if diskblock == 0 {
        ZeroBlockIo(i, uio, fileblock);
        return;
      }
      TransferBlock(i, uio, fileblock, diskblock);
    }

    /** Reading a block that is not mapped. */
    method ZeroBlockIo(i: nat, uio: UioObj, p: nat)
      requires Valid() && i in vnodes && uio.Valid() && Apart(uio) && p < FILEBLOCKS && Slot(S(), i, p) == 0
      requires uio.rw.Read? && uio.offset == p * BLOCKSIZE && BLOCKSIZE <= uio.resid
      modifies uio, uio.mem
      ensures Valid() && S() == old(S()) && uio.Advanced(BLOCKSIZE)
      ensures uio.mem[..] ==
        Splice(old(uio.mem[..]), old(uio.base), Flat(S(), i)[old(uio.offset)..old(uio.offset) + BLOCKSIZE])
    {
      hide Core, Slot, Splice, Flat, ViewOf, BlockOf;
      CachedLive(S(), i);
      SlotBlock(S(), i, p);
      FlatPart(S(), i, p, 0, BLOCKSIZE);
      assert BlockOf(S(), i, p)[0..BLOCKSIZE] == BlockOf(S(), i, p);
      uio.MoveZeros(BLOCKSIZE);
    }

    /** Device I/O straight between the uio and the block behind file block `p`. */
    method TransferBlock(i: nat, uio: UioObj, p: nat, diskblock: nat)
      requires Valid() && i in vnodes && uio.Valid() && Apart(uio) && p < FILEBLOCKS
        && diskblock == Slot(S(), i, p) != 0
      requires uio.offset == p * BLOCKSIZE && BLOCKSIZE <= uio.resid
      modifies this, uio, uio.mem
      ensures Valid() && super == old(super) && |disk| == old(|disk|) && table == old(table)
        && vnodes.Keys == old(vnodes.Keys)
      ensures owner == old(owner) && uio.Advanced(BLOCKSIZE)
      ensures uio.rw.Read? ==> S() == old(S())
      ensures uio.rw.Read? ==>
                uio.mem[..] == Splice(old(uio.mem[..]), old(uio.base),
                  Flat(S(), i)[old(uio.offset)..old(uio.offset) + BLOCKSIZE])
      ensures uio.rw.Write? ==> uio.mem[..] == old(uio.mem[..])
      ensures uio.rw.Write? ==>
                ViewOf(S()) == PutBytes(old(ViewOf(S())), i, old(uio.offset),
                  old(uio.mem[uio.base..uio.base + BLOCKSIZE]))
    {
      hide Core, Slot, Splice, Flat, ViewOf, PutBytes, BlockOf, BlockView;
      CachedLive(S(), i);
      SlotBlock(S(), i, p);
      ghost var s := S();
      var saveoff := uio.offset;
      var diskoff := diskblock * BLOCKSIZE;
      uio.offset := diskoff;
      var saveres := uio.resid;
      var diskres := BLOCKSIZE;
      uio.resid := diskres;
      RwBlock(uio);
      uio.offset := uio.offset - diskoff + saveoff;
      uio.resid := uio.resid - diskres + saveres;
      if uio.rw.Write? {
        ghost var data := old(uio.mem[uio.base..uio.base + BLOCKSIZE]);
        WriteDataKeeps(s, i, p, data);
        SpliceAll(BlockOf(s, i, p), data);
        PutInBlock(s, i, p, 0, data);
      } else {
        FlatPart(s, i, p, 0, BLOCKSIZE);
        assert BlockOf(s, i, p)[0..BLOCKSIZE] == BlockOf(s, i, p);
      }
    }

    /** How far a transfer on file `i` that began in state `s0` at offset `o` has come: exactly the bytes
        between `o` and the current offset have been moved. */
    ghost predicate Progress(i: nat, uio: UioObj, s0: Fs, o: nat, base0: nat, mem0: seq<byte>)
      reads this, freemap.v, uio, uio.mem
    {
      && Valid() && i in vnodes && uio.Valid() && Apart(uio)
      && Core(s0) && i in s0.vnodes && |mem0| == uio.mem.Length
      && super == s0.super && |disk| == |s0.disk| && table == s0.table && vnodes.Keys == s0.vnodes.Keys
      && o <= uio.offset && uio.base == base0 + (uio.offset - o)
      && (o < uio.offset ==> uio.offset <= MAXFILE)
      && (uio.rw.Write? ==>
            && uio.mem[..] == mem0
            && i in ViewOf(s0) && |ViewOf(s0)[i].bytes| == MAXFILE
            && ViewOf(S()) == PutBytes(ViewOf(s0), i, o, mem0[base0..uio.base]))
      && (uio.rw.Read? ==>
            && S() == s0 && i < |s0.disk|
            && uio.mem[..] == ReadInto(mem0, base0, Flat(s0, i), o, uio.offset))
    }

    /** One sfs_partialio continues a transfer. */
    method PartialStep(i: nat, uio: UioObj, skip: nat, len: nat, ghost s0: Fs, ghost o: nat, ghost base0: nat,
      ghost mem0: seq<byte>)
      returns (err: Errno)
      requires Progress(i, uio, s0, o, base0, mem0)
      requires skip == uio.offset % BLOCKSIZE && skip + len <= BLOCKSIZE && len <= uio.resid
      modifies this, freemap.v, uio, uio.mem
      ensures Progress(i, uio, s0, o, base0, mem0)
      ensures err in {EOK, EINVAL, ENOSPC}
      ensures Spent(2) && (err == ENOSPC ==> old(Room(owner)) <= 1)
      ensures err == EINVAL <==> old(uio.offset) >= MAXFILE
      ensures err == ENOSPC ==> uio.rw.Write? && DiskFull(S())
      ensures uio.Advanced(if err == EOK then len else 0)
      ensures old(uio.offset) / BLOCKSIZE < FILEBLOCKS && old(Slot(S(), i, uio.offset / BLOCKSIZE)) != 0 ==> err == EOK
      ensures old(uio.offset) / BLOCKSIZE < FILEBLOCKS && old(Slot(S(), i, uio.offset / BLOCKSIZE)) != 0 ==>
        owner == old(owner)
    {
      hide Core, Slot, Splice, Flat, ViewOf, PutBytes, ReadInto;
      CachedLive(S(), i);
      CachedLive(s0, i);
      ghost var at, base := uio.offset, uio.base;
      err := PartialIo(i, uio, skip, len);
      if err == EOK {
        if uio.rw.Write? {
          WriteStep(ViewOf(s0), i, o, mem0, base0, base, base + len);
        } else {
          ReadStep(mem0, base0, Flat(s0, i), o, at, at + len);
        }
      }
    }

    /** One sfs_blockio continues a transfer. */
    method BlockStep(i: nat, uio: UioObj, ghost s0: Fs, ghost o: nat, ghost base0: nat, ghost mem0: seq<byte>)
      returns (err: Errno)
      requires Progress(i, uio, s0, o, base0, mem0)
      requires uio.offset % BLOCKSIZE == 0 && BLOCKSIZE <= uio.resid
      modifies this, freemap.v, uio, uio.mem
      ensures Progress(i, uio, s0, o, base0, mem0)
      ensures err in {EOK, EINVAL, ENOSPC}
      ensures err == EINVAL <==> old(uio.offset) >= MAXFILE
      ensures err == ENOSPC ==> uio.rw.Write? && DiskFull(S())
      ensures uio.Advanced(if err == EOK then BLOCKSIZE else 0)
      ensures Spent(2)
    {
      hide Core, Slot, Splice, Flat, ViewOf, PutBytes, ReadInto;
      CachedLive(S(), i);
      CachedLive(s0, i);
      ghost var at, base := uio.offset, uio.base;
      err := BlockIo(i, uio);
      if err == EOK {
        if uio.rw.Write? {
          WriteStep(ViewOf(s0), i, o, mem0, base0, base, base + BLOCKSIZE);
        } else {
          ReadStep(mem0, base0, Flat(s0, i), o, at, at + BLOCKSIZE);
        }
      }
    }

    /** The transfer loop of sfs_io: a leading partial block, whole blocks, a trailing partial block. */
    method Transfer(i: nat, uio: UioObj, ghost s0: Fs, ghost o: nat, ghost base0: nat, ghost mem0: seq<byte>)
      returns (err: Errno)
      requires Progress(i, uio, s0, o, base0, mem0) && uio.offset == o && S() == s0
      modifies this, freemap.v, uio, uio.mem
      ensures Progress(i, uio, s0, o, base0, mem0)
      ensures uio.offset + uio.resid == o + old(uio.resid) && uio.offset + uio.iovLen == o + old(uio.iovLen)
      ensures err in {EOK, EINVAL, ENOSPC}
      ensures InBlock(o, old(uio.resid)) ==> Spent(2) && (err == ENOSPC ==> old(Room(owner)) <= 1)
      ensures err == EOK ==> uio.resid == 0
      ensures err == EINVAL ==> uio.offset >= MAXFILE
      ensures err == EINVAL && uio.resid == 0 ==> o % BLOCKSIZE != 0 && uio.offset == o
      ensures o >= MAXFILE && (old(uio.resid) > 0 || o % BLOCKSIZE != 0) ==> err == EINVAL
      ensures old(uio.resid) == 0 && o % BLOCKSIZE == 0 ==> err == EOK
      ensures err == ENOSPC ==> uio.rw.Write? && DiskFull(S())
      ensures err != EOK && o % BLOCKSIZE + old(uio.resid) <= BLOCKSIZE ==> uio.offset == o
      ensures InOneBlock(o, old(uio.resid)) && Slot(s0, i, o / BLOCKSIZE) != 0 ==> err == EOK
      ensures InOneBlock(o, old(uio.resid)) && Slot(s0, i, o / BLOCKSIZE) != 0 ==> owner == old(owner)
      ensures Spent(2 * Touched(old(uio.resid)))
    {
      hide Progress, Core, Slot, ViewOf, Room, DiskFull, Live;
      ghost var n, m := uio.resid, uio.iovLen;
      CachedProgress(i, uio, s0, o, base0, mem0);
      var blkoff := uio.offset % BLOCKSIZE;
      if blkoff != 0 {
        var skip := blkoff;
        var len := BLOCKSIZE - blkoff;
        if len > uio.resid {
          len := uio.resid;
        }
        err := PartialStep(i, uio, skip, len, s0, o, base0, mem0);
        if err != EOK {
          return;
        }
      }
      if uio.resid == 0 {
        return EOK;
      }
      assert uio.resid / BLOCKSIZE <= n / BLOCKSIZE;
      err := WholeBlocks(i, uio, s0, o, base0, mem0);
      if err != EOK {
        return;
      }
      if uio.resid > 0 {
        err := PartialStep(i, uio, 0, uio.resid, s0, o, base0, mem0);
        return;
      }
      err := EOK;
    }

    /** The loop of sfs_io over the whole blocks of a transfer. */
    method WholeBlocks(i: nat, uio: UioObj, ghost s0: Fs, ghost o: nat, ghost base0: nat, ghost mem0: seq<byte>)
      returns (err: Errno)
      requires Progress(i, uio, s0, o, base0, mem0) && uio.offset % BLOCKSIZE == 0
      modifies this, freemap.v, uio, uio.mem
      ensures Spent(2 * (old(uio.resid) / BLOCKSIZE))
      ensures err in {EOK, EINVAL, ENOSPC}
      ensures uio.offset + uio.resid == old(uio.offset + uio.resid)
        && uio.offset + uio.iovLen == old(uio.offset + uio.iovLen)
      ensures uio.offset % BLOCKSIZE == 0 && uio.offset >= old(uio.offset)
      ensures err == EOK <==> uio.resid < BLOCKSIZE
      ensures err == EINVAL ==> uio.offset >= MAXFILE
      ensures err == ENOSPC ==> uio.rw.Write? && DiskFull(S())
      ensures old(uio.resid) < BLOCKSIZE ==> uio.offset == old(uio.offset) && S() == old(S())
      ensures old(uio.offset) >= MAXFILE && old(uio.resid) >= BLOCKSIZE ==> err == EINVAL
      ensures old(uio.offset) >= MAXFILE ==> uio.offset == old(uio.offset)
      ensures Progress(i, uio, s0, o, base0, mem0)
    {
      hide Progress, Core, Slot, ViewOf, Room;
      ghost var at, n := uio.offset, uio.resid;
      CachedProgress(i, uio, s0, o, base0, mem0);
      var nblocks := uio.resid / BLOCKSIZE;
      for k := 0 to nblocks
        invariant Progress(i, uio, s0, o, base0, mem0)
        invariant uio.offset + uio.resid == at + n && uio.offset + uio.iovLen == old(uio.offset + uio.iovLen)
        invariant uio.offset % BLOCKSIZE == 0 && uio.offset >= at && uio.resid / BLOCKSIZE == nblocks - k
        invariant at >= MAXFILE ==> k == 0
        invariant k == 0 ==> uio.offset == at && S() == old(S())
        invariant Spent(2 * k)
      {
        err := BlockStep(i, uio, s0, o, base0, mem0);
        if err != EOK {
          return;
        }
      }
      err := EOK;
    }

    lemma CachedProgress(i: nat, uio: UioObj, s0: Fs, o: nat, base0: nat, mem0: seq<byte>)
      requires Progress(i, uio, s0, o, base0, mem0)
      ensures Valid() && uio.Valid() && i in vnodes && Live(S(), i) && i < |disk| && i < |s0.disk|
      ensures o < uio.offset ==> uio.offset <= MAXFILE
    {
      hide ViewOf, Flat, PutBytes, Owned, Clean;
    }

    /** Parts of the state that file I/O never touches. */
    twostate predicate SameTables()
      reads this
    {
      super == old(super) && |disk| == old(|disk|) && table == old(table) && vnodes.Keys == old(vnodes.Keys)
    }

    /** sfs_io, reading: the bytes between the offset and the end of file (or of the largest file) arrive
        in the uio, the residue counts the rest, and the file system does not change. */
    method ReadIo(i: nat, uio: UioObj) returns (err: Errno)
      requires Valid() && i in vnodes && uio.Valid() && Apart(uio) && uio.rw.Read?
      modifies this, freemap.v, uio, uio.mem
      ensures Valid() && S() == old(S()) && uio.Valid()
      ensures err == if old(ReadFails(vnodes[i].inode.size, uio.offset, uio.resid)) then EINVAL else EOK
      ensures old(uio.offset) <= uio.offset == old(ReadStop(vnodes[i].inode.size, uio.offset, uio.resid))
      ensures uio.offset + uio.resid == old(uio.offset + uio.resid)
      ensures uio.mem[..] == ReadInto(old(uio.mem[..]), old(uio.base), old(Flat(S(), i)), old(uio.offset), uio.offset)
    {
      hide Core, Slot, ViewOf, ReadInto, Flat;
      CachedLive(S(), i);
      ghost var s0, o, base0, mem0 := S(), uio.offset, uio.base, uio.mem[..];
      var extraresid := 0;
      var size := vnodes[i].inode.size;
      var endpos := uio.offset + uio.resid;
      ReadNothing(mem0, base0, Flat(s0, i), o);
      if uio.offset >= size {
        return EOK;
      }
      if endpos > size {
        extraresid := endpos - size;
        assert uio.resid > extraresid;
        uio.resid := uio.resid - extraresid;
      }
      err := Transfer(i, uio, s0, o, base0, mem0);
      CachedProgress(i, uio, s0, o, base0, mem0);
      uio.resid := uio.resid + extraresid;
    }

    /** sfs_io, writing: exactly the bytes between the old and the new offset are written to this file, the
        size becomes the larger of itself and the new offset, and no other file changes -- also when the
        write stops early because the disk or the file is full. */
    method WriteIo(i: nat, uio: UioObj) returns (err: Errno)
      requires Valid() && i in vnodes && uio.Valid() && Apart(uio) && uio.rw.Write?
      requires uio.offset + uio.resid < 0x8000_0000
      modifies this, freemap.v, uio, uio.mem
      ensures Valid() && uio.Valid() && SameTables() && uio.mem[..] == old(uio.mem[..])
      ensures err in {EOK, EINVAL, ENOSPC}
      ensures old(InBlock(uio.offset, uio.resid)) ==> Spent(2) && (err == ENOSPC ==> old(Room(owner)) <= 1)
      ensures old(uio.offset) <= uio.offset && uio.offset + uio.resid == old(uio.offset + uio.resid)
      ensures uio.offset > old(uio.offset) ==> uio.offset <= MAXFILE
      ensures ViewOf(S()) == WriteView(old(ViewOf(S())), i, old(uio.offset),
                                       uio.mem[old(uio.base)..old(uio.base) + (uio.offset - old(uio.offset))])
      ensures err == EOK ==> uio.resid == 0
      ensures err == EINVAL ==> uio.offset >= MAXFILE
      ensures old(uio.offset + uio.resid) <= MAXFILE ==> err != EINVAL
      ensures old(uio.offset) >= MAXFILE && old(uio.resid) > 0 ==> err == EINVAL
      ensures err == ENOSPC ==> DiskFull(S())
      ensures err != EOK && old(uio.offset) % BLOCKSIZE + old(uio.resid) <= BLOCKSIZE ==> uio.offset == old(uio.offset)
      ensures old(InOneBlock(uio.offset, uio.resid) && Slot(S(), i, uio.offset / BLOCKSIZE) != 0) ==> err == EOK
      ensures old(InOneBlock(uio.offset, uio.resid) && Slot(S(), i, uio.offset / BLOCKSIZE) != 0) ==>
        owner == old(owner)
      ensures Spent(2 * Touched(old(uio.resid)))
    {
      hide Core, Slot, ViewOf, PutBytes, Progress, Room, DiskFull;
      CachedLive(S(), i);
      ghost var s0, o, base0, mem0 := S(), uio.offset, uio.base, uio.mem[..];
      assert Progress(i, uio, s0, o, base0, mem0) by {
        StartProgress(i, uio);
      }
      err := Transfer(i, uio, s0, o, base0, mem0);
      EndProgress(i, uio, s0, o, base0, mem0);
      GrowTo(i, uio.offset);
    }

    /** Updates the size of a file that has grown. */
    method GrowTo(i: nat, size: u32)
      requires Valid() && i in vnodes
      modifies this`vnodes
      ensures Valid() && vnodes.Keys == old(vnodes.Keys) && i in old(ViewOf(S()))
      ensures ViewOf(S()) == if size > old(vnodes[i].inode.size) then
                               old(ViewOf(S()))[i := old(ViewOf(S()))[i].(size := size)]
                             else old(ViewOf(S()))
      ensures old(DiskFull(S())) ==> DiskFull(S())
      ensures size <= old(vnodes[i].inode.size) ==> S() == old(S())
    {
      hide Core, Slot, ViewOf;
      CachedLive(S(), i);
      if size > vnodes[i].inode.size {
        SetSize(i, size);
      }
    }

    lemma StartProgress(i: nat, uio: UioObj)
      requires Valid() && i in vnodes && uio.Valid() && Apart(uio)
      ensures Progress(i, uio, S(), uio.offset, uio.base, uio.mem[..])
    {
      hide Core, Slot, ViewOf, PutBytes, ReadInto, Flat;
      CachedLive(S(), i);
      PutNothing(ViewOf(S()), i, uio.offset);
      ReadNothing(uio.mem[..], uio.base, Flat(S(), i), uio.offset);
      assert uio.mem[..][uio.base..uio.base] == [];
    }

    lemma EndProgress(i: nat, uio: UioObj, s0: Fs, o: nat, base0: nat, mem0: seq<byte>)
      requires Progress(i, uio, s0, o, base0, mem0) && uio.rw.Write?
      ensures Valid() && uio.Valid() && uio.mem[..] == mem0 && i in vnodes && Live(S(), i)
      ensures super == s0.super && |disk| == |s0.disk| && table == s0.table && vnodes.Keys == s0.vnodes.Keys
      ensures o <= uio.offset && uio.base == base0 + (uio.offset - o) && (o < uio.offset ==> uio.offset <= MAXFILE)
      ensures i in ViewOf(s0) && |ViewOf(s0)[i].bytes| == MAXFILE && i in s0.vnodes
      ensures ViewOf(S()) == PutBytes(ViewOf(s0), i, o, mem0[base0..uio.base])
      ensures vnodes[i].inode.size == ViewOf(s0)[i].size && i in ViewOf(S())
    {
      hide Core, Slot, ViewOf, PutBytes;
      CachedLive(S(), i);
      CachedLive(s0, i);
      PutKeepsMeta(ViewOf(s0), i, o, mem0[base0..uio.base]);
    }

    method SetSize(i: nat, size: u32)
      requires Valid() && i in vnodes
      modifies this`vnodes
      ensures Valid() && vnodes.Keys == old(vnodes.Keys) && i in old(ViewOf(S()))
      ensures S() == old(SetInode(S(), i, vnodes[i].inode.(size := size)))
      ensures ViewOf(S()) == old(ViewOf(S()))[i := old(ViewOf(S()))[i].(size := size)]
    {
      hide Core, Slot, ViewOf;
      CachedLive(S(), i);
      SetMetaKeeps(S(), i, vnodes[i].inode.(size := size));
      vnodes := vnodes[i := vnodes[i].(inode := vnodes[i].inode.(size := size), dirty := true)];
    }

    // -------------------------------------------------------------- sfs_truncate

    /** The direct half of sfs_truncate. */
    method CutDirectBlocks(i: nat, blocklen: nat)
      requires Valid() && i in vnodes
      modifies this, freemap.v
      ensures Valid() && Cut(S(), old(S()), i, KeptBlocks(blocklen), NDIRECT)
    {
      hide Core, Slot, Cut;
      ghost var s0, lo := S(), KeptBlocks(blocklen);
      CutStart(s0, i, lo);
      for p := 0 to NDIRECT
        invariant freemap.Valid() && super == s0.super && Cut(S(), s0, i, lo, p)
      {
        ghost var s := S();
        CutFacts(s, s0, i, lo, p);
        assert p >= blocklen <==> p >= lo;
        var block := vnodes[i].inode.direct[p];
        if p >= blocklen && block != 0 {
          CutDirect(s, s0, i, lo, p);
          SlotMarked(s, i, p);
          Bfree(block);
          var n := vnodes[i].inode;
          vnodes := vnodes[i := vnodes[i].(inode := n.(direct := n.direct[p := 0]), dirty := true)];
          assert S() == FreeDirect(s, i, p);
        } else {
          CutSkip(s, s0, i, lo, p);
        }
      }
      CutFacts(S(), s0, i, lo, NDIRECT);
    }

    /** The indirect half of sfs_truncate.  While the entries are discarded the disk still holds the old indirect
        block; the ghost state `g` is the file system with the buffer already written back. */
    method CutIndirectBlocks(i: nat, blocklen: nat, ghost s0: Fs)
      requires Valid() && i in vnodes && Cut(S(), s0, i, KeptBlocks(blocklen), NDIRECT)
      modifies this, freemap.v
      ensures Valid() && CutDone(S(), s0, i, KeptBlocks(blocklen))
    {
      hide Core, Slot, Cut, CutDone, DropsIndirect;
      ghost var lo := KeptBlocks(blocklen);
      CutFacts(S(), s0, i, lo, NDIRECT);
      var idblock := vnodes[i].inode.indirect;
      var baseblock := NDIRECT;
      var highblock := baseblock + DBPERIDB - 1;
      if blocklen < highblock && idblock != 0 {
        var idbuf, hasnonzero, iddirty := CutEntries(i, blocklen, s0);
        WriteBackIndirect(i, lo, idbuf, hasnonzero, iddirty, s0);
      } else {
        CutSlotOk(S(), s0, i, lo, NDIRECT);
        NothingLeft(S(), s0, i, lo, blocklen);
        CutSkipRest(S(), s0, i, lo, NDIRECT);
        CutKept(S(), s0, i, lo);
      }
    }

    /** What becomes of the indirect block once its entries are cut: freed, written back or left alone. */
    method WriteBackIndirect(i: nat, ghost lo: nat, idbuf: seq<u32>, hasnonzero: bool, iddirty: bool, ghost s0: Fs)
      requires freemap.Valid() && freemap.nbits == BitmapSize(super.nblocks) && |idbuf| == DBPERIDB && lo < FILEBLOCKS
      requires i in vnodes && 0 < vnodes[i].inode.indirect < |disk|
      requires Cut(S().(disk := disk[vnodes[i].inode.indirect := PutWords(idbuf)]), s0, i, lo, FILEBLOCKS)
      requires hasnonzero <==> exists k :: 0 <= k < DBPERIDB && idbuf[k] != 0
      requires !iddirty ==> PutWords(idbuf) == disk[vnodes[i].inode.indirect]
      modifies this, freemap.v
      ensures Valid() && CutDone(S(), s0, i, lo)
    {
      hide Core, Slot, Cut, CutDone, DropsIndirect;
      var idblock := vnodes[i].inode.indirect;
      ghost var g := S().(disk := disk[idblock := PutWords(idbuf)]);
      CutFacts(g, s0, i, lo, FILEBLOCKS);
      EntriesLeft(g, s0, i, lo, idbuf);
      if !hasnonzero {
        IndirectMarked(g, i);
        CutDropped(g, s0, i, lo, disk[idblock]);
        Bfree(idblock);
        vnodes := vnodes[i := vnodes[i].(inode := vnodes[i].inode.(indirect := 0), dirty := true)];
        assert S() == SetBlock(FreeIndirect(g, i), idblock, disk[idblock]);
      } else {
        if iddirty {
          disk := disk[idblock := PutWords(idbuf)];
        }
        assert S() == g;
        CutKept(S(), s0, i, lo);
      }
      CutDoneFacts(S(), s0, i, lo);
    }

    /** The loop over the entries of the indirect block. */
    method CutEntries(i: nat, blocklen: nat, ghost s0: Fs) returns (idbuf: seq<u32>, hasnonzero: bool, iddirty: bool)
      requires Valid() && i in vnodes && Cut(S(), s0, i, KeptBlocks(blocklen), NDIRECT)
      requires blocklen < FILEBLOCKS - 1 && vnodes[i].inode.indirect != 0
      modifies this, freemap.v
      ensures freemap.Valid() && super == old(super) && disk == old(disk) && vnodes == old(vnodes)
      ensures vnodes[i].inode.indirect < |disk| && |idbuf| == DBPERIDB
      ensures Cut(S().(disk := disk[vnodes[i].inode.indirect := PutWords(idbuf)]), s0, i, KeptBlocks(blocklen),
        FILEBLOCKS)
      ensures hasnonzero <==> exists k :: 0 <= k < DBPERIDB && idbuf[k] != 0
      ensures !iddirty ==> PutWords(idbuf) == disk[vnodes[i].inode.indirect]
    {
      hide Core, Slot, Cut, PutWords;
      ghost var lo := KeptBlocks(blocklen);
      ghost var g := S();
      CutFacts(g, s0, i, lo, NDIRECT);
      EntrySlot(g, i, NDIRECT);
      var idblock := vnodes[i].inode.indirect;
      idbuf := GetWords(disk[idblock]);
      BytesRoundTrip(disk[idblock]);
      hasnonzero, iddirty := false, false;
      ghost var seen := 0;
      for j := 0 to DBPERIDB
        invariant freemap.Valid() && super == old(super) && disk == old(disk) && vnodes == old(vnodes)
          && |idbuf| == DBPERIDB
        invariant g == S().(disk := disk[idblock := PutWords(idbuf)]) && Cut(g, s0, i, lo, NDIRECT + j)
        invariant hasnonzero ==> seen < j && idbuf[seen] != 0
        invariant !hasnonzero ==> forall k :: 0 <= k < j ==> idbuf[k] == 0
        invariant !iddirty ==> PutWords(idbuf) == disk[idblock]
      {
        CutFacts(g, s0, i, lo, NDIRECT + j);
        BufferSlot(g, i, j, idbuf);
        assert blocklen < NDIRECT + j <==> lo <= NDIRECT + j;
        if blocklen < NDIRECT + j && idbuf[j] != 0 {
          CutEntry(g, s0, i, lo, NDIRECT + j);
          SlotMarked(g, i, NDIRECT + j);
          BufferFree(g, i, j, idbuf);
          g := FreeEntry(g, i, NDIRECT + j);
          Bfree(idbuf[j]);
          idbuf := idbuf[j := 0];
          iddirty := true;
          assert g.disk == disk[idblock := PutWords(idbuf)];
        } else {
          CutSkip(g, s0, i, lo, NDIRECT + j);
        }
        if idbuf[j] != 0 {
          hasnonzero, seen := true, j;
        }
      }
    }

    /** sfs_truncate, for any length. */
    method Truncate(i: nat, len: nat)
      requires Valid() && i in vnodes && len + BLOCKSIZE <= 0x8000_0000
      modifies this, freemap.v
      ensures Valid() && CutMaps(S(), old(S()), i, KeptBlocks((len + BLOCKSIZE - 1) / BLOCKSIZE))
      ensures i in old(ViewOf(S())) && ViewOf(S()) == TruncView(old(ViewOf(S())), i, len)
      ensures Room(owner) >= old(Room(owner))
    {
      hide Core, Slot, Cut, CutDone, CutMaps, ViewOf, ZeroBlocks;
      CachedLive(S(), i);
      ghost var s0 := S();
      var blocklen := (len + BLOCKSIZE - 1) / BLOCKSIZE;
      CutDirectBlocks(i, blocklen);
      CutFacts(S(), s0, i, KeptBlocks(blocklen), NDIRECT);
      CutIndirectBlocks(i, blocklen, s0);
      CutDoneFacts(S(), s0, i, KeptBlocks(blocklen));
      SizeAfterCut(S(), s0, i, KeptBlocks(blocklen), len);
      SetSize(i, len);
      CutRoom(S(), s0, i, KeptBlocks(blocklen));
    }

    // -------------------------------------------------------------- vnodes

    /** sfs_loadvnode: the vnode of a live inode, with one more reference.  The "unallocated block" panics
        cannot happen, nor can the one for an unknown type if the inode's type is known.  `typ` is set only
        for a new object, whose block still reads as untyped. */
    method LoadVnode(ino: nat, typ: u16)
      requires Valid() && Live(S(), ino)
      requires typ != TYPE_INVAL ==> ino !in vnodes && GetInode(disk[ino]).typ == TYPE_INVAL
      requires typ == TYPE_INVAL && ino !in vnodes ==> GetInode(disk[ino]).typ in {TYPE_FILE, TYPE_DIR}
      requires typ in {TYPE_INVAL, TYPE_FILE, TYPE_DIR}
      modifies this
      ensures Valid() && ino in vnodes && super == old(super) && |disk| == old(|disk|) && owner == old(owner)
      ensures old(ino in vnodes) ==> S() == old(SetRefs(S(), ino, vnodes[ino].refs + 1))
      ensures old(ino in vnodes) ==>
        ViewOf(S()) == old(ViewOf(S()))[ino := old(ViewOf(S()))[ino].(refs := old(ViewOf(S()))[ino].refs + 1)]
      ensures old(ino !in vnodes) ==>
        S() == old(Load(S(), ino, typ)) && ViewOf(S()) == LoadView(old(ViewOf(S())), ino, typ)
      ensures ino in old(ViewOf(S())) && (typ == TYPE_INVAL ==>
                ViewOf(S()) == old(ViewOf(S()))[ino := old(ViewOf(S()))[ino].(refs := old(ViewOf(S()))[ino].refs + 1)])
    {
      hide Core, Slot, ViewOf, GetInode;
      ghost var s := S();
      LiveFacts(s, ino);
      ViewLive(s, ino);
      var num := |table|;
      for k := 0 to num
        invariant S() == s
        invariant forall j :: 0 <= j < k ==> table[j] != ino
      {
        TableLive(s, k);
        var used := Bused(table[k]);
        assert used;
        if table[k] == ino {
          CachedLive(s, ino);
          SetRefsKeeps(s, ino, vnodes[ino].refs + 1);
          vnodes := vnodes[ino := vnodes[ino].(refs := vnodes[ino].refs + 1)];
          return;
        }
      }
      assert ino !in vnodes by {
        NotInTable(s, ino);
      }
      var used := Bused(ino);
      assert used;
      var n := GetInode(disk[ino]);
      LoadKeeps(s, ino, typ);
      if typ != TYPE_INVAL {
        assert n.typ == TYPE_INVAL;
        vnodes := vnodes[ino := Vnode(n.(typ := typ), true, 1)];
      } else {
        vnodes := vnodes[ino := Vnode(n, false, 1)];
      }
      assert vnodes[ino].inode.typ == TYPE_FILE || vnodes[ino].inode.typ == TYPE_DIR;
      table := table + [ino];
    }

    /** sfs_makeobj: a new empty file with one reference and no link, in the least free block. */
    method MakeObj() returns (err: Errno, ino: nat)
      requires Valid()
      modifies this, freemap.v
      ensures Valid() && super == old(super)
      ensures err == EOK || err == ENOSPC
      ensures err == ENOSPC ==> S() == old(S()) && DiskFull(S())
      ensures if err == EOK then Room(owner) + 1 == old(Room(owner)) else old(Room(owner)) == 0
      ensures err == EOK ==>
        FreeBlock(old(S()), ino) && ino !in old(ViewOf(S())) && ino !in old(vnodes) && ino in vnodes
      ensures err == EOK ==> ViewOf(S()) == old(ViewOf(S()))[ino := NewFile()]
      ensures err == EOK ==>
        table == old(table) + [ino]
        && forall j :: j in old(vnodes) ==> j in vnodes && vnodes[j] == old(vnodes)[j]
    {
      hide Slot, ViewOf, GetInode, Owned, Clean;
      ghost var s := S();
      err, ino := Balloc(INode);
      if err != EOK {
        return;
      }
      TakeInodeKeeps(s, ino);
      LoadVnode(ino, TYPE_FILE);
    }

    /** sfs_sync_inode */
    method SyncVnode(i: nat)
      requires Valid() && i in vnodes
      modifies this
      ensures Valid() && i in vnodes && !vnodes[i].dirty
      ensures S() == if old(vnodes[i].dirty) then old(SyncInode(S(), i)) else old(S())
      ensures ViewOf(S()) == old(ViewOf(S()))
    {
      hide Core, Slot, ViewOf, PutInode;
      CachedLive(S(), i);
      if vnodes[i].dirty {
        SyncInodeKeeps(S(), i);
        disk := disk[i := PutInode(vnodes[i].inode)];
        vnodes := vnodes[i := vnodes[i].(dirty := false)];
      }
    }

    /** sfs_reclaim, called on the last reference: an unlinked file is erased and its inode block freed, any other
        is written back; either way the vnode leaves memory. */
    method Reclaim(i: nat)
      requires Valid() && i in vnodes && vnodes[i].refs == 1 && (i == ROOT_LOCATION ==> vnodes[i].inode.links > 0)
      modifies this, freemap.v
      ensures Valid() && super == old(super) && i !in vnodes && i in old(ViewOf(S()))
      ensures old(vnodes[i].inode.links) > 0 ==> owner == old(owner)
      ensures ViewOf(S()) == if old(vnodes[i].inode.links) == 0 then old(ViewOf(S())) - {i}
                             else old(ViewOf(S()))[i := old(ViewOf(S()))[i].(refs := 0)]
      ensures Room(owner) >= old(Room(owner))
    {
      hide Core, Slot, ViewOf, GetInode, PutInode, CutMaps, ZeroBlocks;
      ghost var v0 := ViewOf(S());
      CachedLive(S(), i);
      if vnodes[i].inode.links == 0 {
        ghost var s0 := S();
        Truncate(i, 0);
        CutToNothing(S(), s0, i);
        assert ViewOf(S()) - {i} == v0 - {i};
      }
      ghost var s1 := S();
      SyncVnode(i);
      ghost var s := S();
      SyncMaps(s1, s, i);
      if vnodes[i].inode.links == 0 {
        InodeMarked(s, i);
        RoomMore(owner, owner[i := Free]);
        Bfree(i);
      }
      var num := |table|;
      var ix := 0;
      while ix < num && table[ix] != i
        invariant 0 <= ix <= num && forall j :: 0 <= j < ix ==> table[j] != i
      {
        ix := ix + 1;
      }
      assert ix < num by {
        InTable(s, i);
      }
      if vnodes[i].inode.links == 0 {
        DiscardKeeps(s, ix);
      } else {
        DropKeeps(s, ix);
      }
      table := table[..ix] + table[ix + 1..];
      vnodes := vnodes - {i};
    }

    /** vnode_decref: an inode is discarded exactly when its last reference goes and it has no link. */
    method Decref(i: nat)
      requires Valid() && i in vnodes && (i == ROOT_LOCATION ==> vnodes[i].inode.links > 0)
      modifies this, freemap.v
      ensures Valid() && super == old(super)
      ensures old(vnodes[i].inode.links) > 0 ==> owner == old(owner)
      ensures i in old(ViewOf(S())) && old(ViewOf(S()))[i].refs > 0 && ViewOf(S()) == DecrefView(old(ViewOf(S())), i)
      ensures Room(owner) >= old(Room(owner))
    {
      hide Core, Slot, ViewOf;
      CachedLive(S(), i);
      RefsPositive(S(), i);
      if vnodes[i].refs > 1 {
        SetRefsKeeps(S(), i, vnodes[i].refs - 1);
        vnodes := vnodes[i := vnodes[i].(refs := vnodes[i].refs - 1)];
      } else {
        Reclaim(i);
      }
    }

    method SetLinks(i: nat, links: u16)
      requires Valid() && i in vnodes
      modifies this`vnodes
      ensures Valid() && vnodes.Keys == old(vnodes.Keys) && i in old(ViewOf(S()))
      ensures ViewOf(S()) == old(ViewOf(S()))[i := old(ViewOf(S()))[i].(links := links)]
    {
      hide Core, Slot, ViewOf;
      CachedLive(S(), i);
      SetMetaKeeps(S(), i, vnodes[i].inode.(links := links));
      vnodes := vnodes[i := vnodes[i].(inode := vnodes[i].inode.(links := links), dirty := true)];
    }

    // -------------------------------------------------------------- directories

    /** The whole invariant: blocks, inodes and the directory.  */
    ghost predicate Inv()
      reads this, freemap.v
    {
      Valid() && DirOk(ViewOf(S()))
    }

    ghost function Root(): FileView
      reads this, freemap.v
      requires Inv()
    {
      ViewOf(S())[ROOT_LOCATION]
    }

    /** sfs_readdir: the entry in one slot.  A short entry cannot happen. */
    method ReadDir(slot: nat) returns (e: DirEnt)
      requires Inv() && ROOT_LOCATION in vnodes && slot < NEnt(Root())
      modifies this, freemap.v
      ensures Inv() && S() == old(S())
      ensures e == Entry(Root(), slot)
    {
      hide Core, Slot, ViewOf, Flat, DirOk, Splice, GetDir;
      RootFacts(S());
      var buf := new byte[DIRSIZE](_ => 0);
      ghost var mem0 := buf[..];
      var ku := new UioObj(buf, slot * DIRSIZE, Read);
      var err := ReadIo(ROOT_LOCATION, ku);
      assert err == EOK && ku.resid == 0;
      ReadWhole(mem0, Flat(S(), ROOT_LOCATION), slot * DIRSIZE);
      e := GetDir(buf[..]);
    }

    /** sfs_dir_findname: looks a name up.  It succeeds exactly for the names in the directory, and reports the last
        empty slot, if any.  The assertion that a name is found only once cannot fail. */
    method FindName(name: Name) returns (err: Errno, ino: nat, slot: nat, emptyslot: int)
      requires Inv() && ROOT_LOCATION in vnodes
      modifies this, freemap.v
      ensures Inv() && S() == old(S())
      ensures err == if name in DirMap(Root()) then EOK else ENOENT
      ensures err == EOK ==>
        slot < NEnt(Root()) && Used(Root(), slot) && NameAt(Root(), slot) == name && ino == Entry(Root(), slot).ino
      ensures err == EOK ==> ino == DirMap(Root())[name]
      ensures -1 <= emptyslot < NEnt(Root())
      ensures emptyslot >= 0 ==> !Used(Root(), emptyslot)
      ensures emptyslot < 0 ==> forall j :: 0 <= j < NEnt(Root()) ==> Used(Root(), j)
    {
      hide Core, Slot, ViewOf, DirOk, GetDir, CStr;
      RootFacts(S());
      ghost var s, d := S(), Root();
      var found := false;
      ino, slot, emptyslot := 0, 0, -1;
      var nentries := vnodes[ROOT_LOCATION].inode.size / DIRSIZE;
      for i := 0 to nentries
        invariant Inv() && S() == s
        invariant -1 <= emptyslot < i && (emptyslot >= 0 ==> !Used(d, emptyslot))
        invariant emptyslot < 0 ==> forall j :: 0 <= j < i ==> Used(d, j)
        invariant found ==> slot < i && Used(d, slot) && NameAt(d, slot) == name && ino == Entry(d, slot).ino
        invariant !found ==> forall j :: 0 <= j < i && Used(d, j) ==> NameAt(d, j) != name
      {
        var tsd := ReadDir(i);
        if tsd.ino == NOINO {
          emptyslot := i;
        } else {
          if CStr(tsd.name[..NAMELEN - 1]) == name {
            assert Used(d, i) && NameAt(d, i) == name;
            assert !found;
            found, slot, ino := true, i, tsd.ino;
          }
        }
      }
      if found {
        NameSlot(d, name, slot);
        err := EOK;
      } else {
        err := ENOENT;
      }
    }

    /** sfs_writedir: one entry into a slot, at most one past the last.  It fails without effect when the directory or
        the disk is full, and never on a slot that is in use.  A short write cannot happen. */
    method WriteDir(e: DirEnt, slot: nat) returns (err: Errno)
      requires Inv() && ROOT_LOCATION in vnodes && slot <= NEnt(Root())
      modifies this, freemap.v
      ensures Valid() && SameTables() && err in {EOK, EINVAL, ENOSPC}
      ensures Spent(2) && (err == ENOSPC ==> old(Room(owner)) <= 1)
      ensures err == EINVAL <==> slot == MAXENTRIES
      ensures err == ENOSPC ==> DiskFull(S())
      ensures slot < NEnt(old(Root())) && Used(old(Root()), slot) ==> err == EOK
      ensures ViewOf(S()) ==
        if err == EOK then WithRoot(old(ViewOf(S())), SetSlot(old(Root()), slot, e)) else old(ViewOf(S()))
      ensures slot < NEnt(old(Root())) && Used(old(Root()), slot) ==> owner == old(owner)
    {
      hide Core, Slot, ViewOf, DirOk, PutDir, Splice, Flat, WriteView, SetSlot, Used, Live, DiskFull;
      RootFacts(S());
      ghost var v, d := ViewOf(S()), Root();
      var bytes := PutDir(e);
      var buf := new byte[DIRSIZE](k requires 0 <= k < DIRSIZE => bytes[k]);
      assert buf[..] == bytes;
      var ku := new UioObj(buf, slot * DIRSIZE, Write);
      if slot < NEnt(d) && Used(d, slot) {
        UsedMapped(S(), slot);
      }
      err := WriteIo(ROOT_LOCATION, ku);
      if err == EOK {
        assert buf[0..DIRSIZE] == bytes;
        WriteSlot(v, slot, e);
      } else {
        assert buf[0..0] == [];
        WriteNoSlot(v, slot);
      }
    }

    /** sfs_dir_link: a fresh name in an empty slot or at the end. */
    method DirLink(name: Name, ino: u32) returns (err: Errno, slot: nat)
      requires Inv() && ROOT_LOCATION in vnodes && ino != NOINO
      modifies this, freemap.v
      ensures Valid() && super == old(super) && |disk| == old(|disk|) && vnodes.Keys == old(vnodes.Keys)
      ensures LinkResult(DirMap(old(Root())), old(Room(owner)), name, err) && Spent(2)
      ensures err == ENOSPC ==> DiskFull(S())
      ensures err != EOK ==> ViewOf(S()) == old(ViewOf(S()))
      ensures err == EOK ==>
        slot <= NEnt(old(Root())) && slot < MAXENTRIES && (slot < NEnt(old(Root())) ==> !Used(old(Root()), slot))
      ensures err == EOK ==> ViewOf(S()) == WithRoot(old(ViewOf(S())), SetSlot(old(Root()), slot, NewEntry(name, ino)))
    {
      hide Core, Slot, ViewOf, DirOk, SetSlot, Entry, DirMap;
      RootFacts(S());
      FullDir(Root());
      slot := 0;
      var r, i0, s0, emptyslot := FindName(name);
      if r == EOK {
        return EEXIST, 0;
      }
      if |name| + 1 > NAMELEN {
        return ENAMETOOLONG, 0;
      }
      if emptyslot < 0 {
        emptyslot := vnodes[ROOT_LOCATION].inode.size / DIRSIZE;
      }
      var sd := NewEntry(name, ino);
      slot := emptyslot;
      err := WriteDir(sd, slot);
    }

    /** sfs_dir_unlink: clears a slot that is in use; this cannot fail. */
    method DirUnlink(slot: nat)
      requires Inv() && ROOT_LOCATION in vnodes && slot < NEnt(Root()) && Used(Root(), slot)
      modifies this, freemap.v
      ensures Valid() && SameTables()
      ensures ViewOf(S()) == WithRoot(old(ViewOf(S())), SetSlot(old(Root()), slot, NoEntry()))
      ensures owner == old(owner)
    {
      var err := WriteDir(NoEntry(), slot);
      assert err == EOK;
    }

    // -------------------------------------------------------------- operations on names and files

    /** The file system as its users see it. */
    ghost function A(): AbsFs
      reads this, freemap.v
      requires Inv()
    {
      AbsOf(ViewOf(S()))
    }

    /** sfs_lookonce: a reference to the file a name leads to.  Its link count is never zero. */
    method LookOnce(name: Name) returns (err: Errno, ino: nat, slot: nat)
      requires Inv() && ROOT_LOCATION in vnodes
      modifies this, freemap.v
      ensures owner == old(owner)
      ensures Inv() && super == old(super) && forall j :: j in old(vnodes) ==> j in vnodes
      ensures err == if name in old(A()).names then EOK else ENOENT
      ensures err != EOK ==> S() == old(S())
      ensures err == EOK ==> ino == old(A()).names[name] && ino in old(ViewOf(S())) && ino in vnodes
      ensures err == EOK ==>
        ViewOf(S()) == old(ViewOf(S()))[ino := old(ViewOf(S()))[ino].(refs := old(ViewOf(S()))[ino].refs + 1)]
      ensures err == EOK ==> ino in old(A()).files && A() == AddRef(old(A()), ino) && A().files[ino].links > 0
      ensures err == EOK ==>
        slot < NEnt(Root()) && Used(Root(), slot) && NameAt(Root(), slot) == name && Entry(Root(), slot).ino == ino
    {
      hide Core, Slot, ViewOf, DirOk, DirMap, SetSlot, Entry, NameAt, LinksTo, NamesUnique, GetInode;
      ghost var v := ViewOf(S());
      RootFacts(S());
      var emptyslot;
      err, ino, slot, emptyslot := FindName(name);
      if err != EOK {
        return;
      }
      UsedHasLink(v, slot);
      ViewLive(S(), ino);
      KnownType(S(), ino);
      LoadVnode(ino, TYPE_INVAL);
      RefView(v, ino);
      CachedLive(S(), ino);
      assert vnodes[ino].inode.links != 0;
    }

    /** One more link to a file somebody holds (the common part of sfs_creat, sfs_link and sfs_rename): the name is
        added and counted, or nothing changes. */
    method AddName(name: Name, i: nat) returns (err: Errno, slot: nat)
      requires Inv() && ROOT_LOCATION in vnodes && i in vnodes
      modifies this, freemap.v
      ensures Inv() && super == old(super) && vnodes.Keys == old(vnodes.Keys)
      ensures LinkResult(old(A()).names, old(Room(owner)), name, err) && Spent(2)
      ensures err == EOK ==> name !in old(A()).names
      ensures err == ENOSPC ==> DiskFull(S())
      ensures err != EOK ==> ViewOf(S()) == old(ViewOf(S()))
      ensures i in old(ViewOf(S())) && (err == EOK ==> A() == AddLink(old(A()), name, i))
      ensures err == EOK ==>
        slot < MAXENTRIES && i < 0x1_0000_0000 && |name| < NAMELEN
        && ViewOf(S()) == LinkView(old(ViewOf(S())), slot, name, i)
      ensures err == EOK ==> (slot < NEnt(old(Root())) ==> !Used(old(Root()), slot)) && slot <= NEnt(old(Root()))
    {
      hide Core, Slot, ViewOf, DirOk, DirMap, SetSlot, Entry, NameAt, LinksTo, NamesUnique, DiskFull, AddLink, Used,
        Live, Flat;
      ghost var v := ViewOf(S());
      RootFacts(S());
      CachedLive(S(), i);
      LiveFacts(S(), i);
      NblocksBound(S());
      LinksFit(v, i);
      InoNonzero(v, i);
      err, slot := DirLink(name, i);
      if err != EOK {
        return;
      }
      AbsLink(v, slot, name, i);
      CachedLive(S(), i);
      SlotLinks(v, slot, name, i);
      var n := vnodes[i].inode.links + 1;
      SetLinks(i, n);
    }

    /** One more reference to the file that a slot names. */
    method Reopen(name: Name, slot: nat, ino: nat)
      requires Inv() && ROOT_LOCATION in vnodes && slot < NEnt(Root()) && Used(Root(), slot)
      requires NameAt(Root(), slot) == name && Entry(Root(), slot).ino == ino
      modifies this
      ensures Inv() && super == old(super) && ROOT_LOCATION in vnodes && owner == old(owner) && ino in vnodes
      ensures name in old(A()).names && ino == old(A()).names[name] && ino in old(A()).files
      ensures A() == AddRef(old(A()), ino)
    {
      hide Core, Slot, ViewOf, DirOk, SetSlot, Entry, NameAt, LinksTo, GetInode, AddLink, Used;
      ghost var v := ViewOf(S());
      RootFacts(S());
      CachedLive(S(), ROOT_LOCATION);
      RefsPositive(S(), ROOT_LOCATION);
      UsedHasLink(v, slot);
      ViewLive(S(), ino);
      KnownType(S(), ino);
      LoadVnode(ino, TYPE_INVAL);
      RefView(v, ino);
    }

    /** sfs_creat: opens the named file, or makes an empty one under that name.  A failed creation changes nothing,
        and leaves no inode behind. */
    method Creat(name: Name, excl: bool) returns (err: Errno, ino: nat)
      requires Inv() && ROOT_LOCATION in vnodes
      modifies this, freemap.v
      ensures Inv() && super == old(super) && ROOT_LOCATION in vnodes
      ensures name in old(A()).names ==> err == if excl then EEXIST else EOK
      ensures name !in old(A()).names ==>
                if old(Room(owner)) == 0 then err == ENOSPC
                else LinkResult(old(A()).names, old(Room(owner)) - 1, name, err)
      ensures if name in old(A()).names then owner == old(owner) else old(Room(owner)) <= Room(owner) + 3
      ensures err == EOK ==> Spent(3)
      ensures err != EOK ==> A() == old(A())
      ensures err == EOK ==> ino in vnodes
      ensures err == EOK && name in old(A()).names ==>
        ino == old(A()).names[name] && ino in old(A()).files && A() == AddRef(old(A()), ino)
      ensures err == EOK && name !in old(A()).names ==> ino !in old(A()).files
      ensures err == EOK && name !in old(A()).names ==>
                A() == AddLink(old(A()).(files := old(A()).files[ino := NewFile()]), name, ino)
    {
      hide Core, Slot, ViewOf, DirOk, DirMap, SetSlot, Entry, NameAt, LinksTo, NamesUnique, GetInode, LinkResult, Room,
        AddLink, Used, DiskFull;
      ghost var s, v := S(), ViewOf(S());
      RootFacts(S());
      CachedLive(S(), ROOT_LOCATION);
      RefsPositive(S(), ROOT_LOCATION);
      var slot, emptyslot;
      err, ino, slot, emptyslot := FindName(name);
      if err == EOK && excl {
        return EEXIST, 0;
      }
      if err == EOK {
        Reopen(name, slot, ino);
        return;
      }
      err, ino := MakeObj();
      if err != EOK {
        return;
      }
      ghost var v1 := ViewOf(S());
      FreeBlockApart(s, ino);
      AbsNew(v, ino, NewFile());
      err, slot := AddName(name, ino);
      if err != EOK {
        CachedLive(S(), ino);
        AbsDecref(v1, ino);
        Decref(ino);
        assert ViewOf(S()) == v1 - {ino} == v;
        HeldCached(S(), ROOT_LOCATION);
      }
    }

    /** sfs_link: a second name for a file. */
    method Link(name: Name, i: nat) returns (err: Errno)
      requires Inv() && ROOT_LOCATION in vnodes && i in vnodes
      modifies this, freemap.v
      ensures Inv() && super == old(super) && vnodes.Keys == old(vnodes.Keys)
      ensures LinkResult(old(A()).names, old(Room(owner)), name, err) && Spent(2)
      ensures err == EOK ==> i in old(A()).files && A() == AddLink(old(A()), name, i)
      ensures err != EOK ==> A() == old(A())
    {
      var slot;
      err, slot := AddName(name, i);
    }

    /** Clears the slot of a held file and counts the lost link (the common part of sfs_remove and sfs_rename). */
    method DropSlot(slot: nat)
      requires Inv() && ROOT_LOCATION in vnodes && slot < NEnt(Root()) && Used(Root(), slot)
      requires Entry(Root(), slot).ino in vnodes
      modifies this, freemap.v
      ensures Inv() && super == old(super) && vnodes.Keys == old(vnodes.Keys)
      ensures Entry(old(Root()), slot).ino in old(ViewOf(S()))
        && old(ViewOf(S()))[Entry(old(Root()), slot).ino].links > 0
      ensures ViewOf(S()) == UnlinkView(old(ViewOf(S())), slot)
      ensures A().names == old(A()).names - {NameAt(old(Root()), slot)}
      ensures var i := Entry(old(Root()), slot).ino;
              A().files == old(A()).files[i := old(A()).files[i].(links := old(A()).files[i].links - 1)]
      ensures owner == old(owner)
    {
      hide Core, Slot, ViewOf, DirOk, DirMap, SetSlot, Entry, NameAt, LinksTo, NamesUnique;
      ghost var v := ViewOf(S());
      RootFacts(S());
      ghost var i := Entry(Root(), slot).ino;
      CachedLive(S(), i);
      RefsPositive(S(), i);
      LinksFit(v, i);
      AbsUnlink(v, slot);
      SlotTyp(v[ROOT_LOCATION], slot, NoEntry());
      var e := ReadDir(slot);
      DirUnlink(slot);
      CachedLive(S(), i);
      assert vnodes[e.ino].inode.links == v[i].links;
      SetLinks(e.ino, vnodes[e.ino].inode.links - 1);
    }

    /** sfs_remove: the name goes, and with it the file if this was its last link and nobody holds it. */
    method Remove(name: Name) returns (err: Errno)
      requires Inv() && ROOT_LOCATION in vnodes
      modifies this, freemap.v
      ensures Inv() && super == old(super) && ROOT_LOCATION in vnodes
      ensures err == if name in old(A()).names then EOK else ENOENT
      ensures err != EOK ==> A() == old(A())
      ensures err == EOK ==> old(A()).names[name] in old(A()).files && old(A()).files[old(A()).names[name]].links > 0
      ensures err == EOK ==> A() == DropName(old(A()), name)
      ensures Room(owner) >= old(Room(owner))
    {
      hide Core, Slot, ViewOf, DirOk, DirMap, SetSlot, Entry, NameAt, LinksTo, NamesUnique;
      CachedLive(S(), ROOT_LOCATION);
      RefsPositive(S(), ROOT_LOCATION);
      ghost var a := A();
      var victim, slot;
      err, victim, slot := LookOnce(name);
      if err != EOK {
        return;
      }
      DropSlot(slot);
      ghost var v := ViewOf(S());
      CachedLive(S(), victim);
      RefsPositive(S(), victim);
      AbsDecref(v, victim);
      RootFacts(S());
      Decref(victim);
      assert A().files == DropName(a, name).files;
      RootHeld(S());
    }

    /** The middle of sfs_rename: link the held file under the new name, then clear the slot of the old one. */
    method MoveName(n1: Name, n2: Name, g1: nat, slot1: nat) returns (err: Errno)
      requires Inv() && ROOT_LOCATION in vnodes && g1 in vnodes
      requires slot1 < NEnt(Root()) && Used(Root(), slot1) && NameAt(Root(), slot1) == n1
        && Entry(Root(), slot1).ino == g1
      modifies this, freemap.v
      ensures Inv() && super == old(super) && vnodes.Keys == old(vnodes.Keys) && g1 in old(A()).files
      ensures LinkResult(old(A()).names, old(Room(owner)), n2, err) && (err == EOK ==> n2 !in old(A()).names)
      ensures err != EOK ==> A() == old(A())
      ensures err == EOK ==> A().names == AddLink(old(A()), n2, g1).names - {n1} && A().files == old(A()).files
      ensures Spent(2)
    {
      hide Core, Slot, ViewOf, DirOk, DirMap, SetSlot, Entry, NameAt, DiskFull, UnlinkView, LinkView, Room, Used,
        LinkResult;
      ghost var a, v1 := A(), ViewOf(S());
      CachedLive(S(), g1);
      var slot2;
      err, slot2 := AddName(n2, g1);
      if err == EOK {
        OtherSlot(v1, slot1, slot2, n2, g1);
        DropSlot(slot1);
        assert A().files == a.files;
      }
    }

    /** sfs_rename: the new name replaces the old one for the same file, with no net change of links.  Renaming to a
        name that exists, the old one included, changes nothing; so does every other failure. */
    method Rename(n1: Name, n2: Name) returns (err: Errno)
      requires Inv() && ROOT_LOCATION in vnodes
      requires n1 in A().names ==> A().names[n1] != ROOT_LOCATION
      modifies this, freemap.v
      ensures Inv() && super == old(super) && ROOT_LOCATION in vnodes
      ensures if n1 in old(A()).names then LinkResult(old(A()).names, old(Room(owner)), n2, err) else err == ENOENT
      ensures err != EOK ==> A() == old(A())
      ensures err == EOK ==> A() == Renamed(old(A()), n1, n2)
      ensures Spent(2)
    {
      hide Core, Slot, ViewOf, DirOk, DirMap, Entry, NameAt, DropRef, Room, LinkResult;
      CachedLive(S(), ROOT_LOCATION);
      RefsPositive(S(), ROOT_LOCATION);
      ghost var a := A();
      var g1, slot1;
      err, g1, slot1 := LookOnce(n1);
      if err != EOK {
        return;
      }
      CachedLive(S(), g1);
      err := MoveName(n1, n2, g1, slot1);
      if err == EOK {
        RenameSteps(a, A(), n1, n2, g1);
      } else {
        RefUnref(a, g1);
      }
      CachedLive(S(), g1);
      RefsPositive(S(), g1);
      AbsDecref(ViewOf(S()), g1);
      RootFacts(S());
      Decref(g1);
      RootHeld(S());
    }

    // -------------------------------------------------------------- operations on file contents

    /** sfs_read; reading a directory is refused. */
    method ReadFile(i: nat, uio: UioObj) returns (err: Errno)
      requires Inv() && i in vnodes && uio.Valid() && Apart(uio) && uio.rw.Read?
      modifies this, freemap.v, uio, uio.mem
      ensures Inv() && S() == old(S()) && uio.Valid() && i in A().files
      ensures err == if i == ROOT_LOCATION then EISDIR
                     else if ReadFails(A().files[i].size, old(uio.offset), old(uio.resid)) then EINVAL else EOK
      ensures err == EISDIR ==> uio.offset == old(uio.offset) && uio.resid == old(uio.resid)
      ensures err != EISDIR ==>
                && old(uio.offset) <= uio.offset == ReadStop(A().files[i].size, old(uio.offset), old(uio.resid))
                && uio.offset + uio.resid == old(uio.offset + uio.resid)
                && uio.mem[..] == ReadInto(old(uio.mem[..]), old(uio.base), A().files[i].bytes, old(uio.offset),
                     uio.offset)
    {
      hide Core, Slot, ViewOf, DirMap, LinksTo, NamesUnique, Flat, ReadInto, Entry;
      CachedLive(S(), i);
      if vnodes[i].inode.typ == TYPE_DIR {
        return EISDIR;
      }
      err := ReadIo(i, uio);
    }

    /** sfs_write; writing a directory is refused. */
    method WriteFile(i: nat, uio: UioObj) returns (err: Errno)
      requires Inv() && i in vnodes && uio.Valid() && Apart(uio) && uio.rw.Write?
      requires uio.offset + uio.resid < 0x8000_0000
      modifies this, freemap.v, uio, uio.mem
      ensures Inv() && uio.Valid() && SameTables() && uio.mem[..] == old(uio.mem[..])
      ensures err in {EOK, EISDIR, EINVAL, ENOSPC} && i in old(A()).files
      ensures err == EISDIR <==> i == ROOT_LOCATION
      ensures err == EISDIR ==> S() == old(S()) && uio.offset == old(uio.offset)
      ensures old(uio.offset) <= uio.offset && uio.offset + uio.resid == old(uio.offset + uio.resid)
      ensures old(uio.offset) < uio.offset ==> uio.offset <= MAXFILE
      ensures err != EISDIR ==>
        A() == Written(old(A()), i, old(uio.offset),
                       uio.mem[old(uio.base)..old(uio.base) + (uio.offset - old(uio.offset))])
      ensures err == EOK ==> uio.resid == 0
      ensures err == EINVAL ==> uio.offset >= MAXFILE
      ensures err == EINVAL ==> old(uio.offset + uio.resid) > MAXFILE
      ensures err == ENOSPC ==> Room(owner) == 0
      ensures old(InBlock(uio.offset, uio.resid)) && err == ENOSPC ==> old(Room(owner)) <= 1
      ensures Spent(2 * Touched(old(uio.resid)))
    {
      hide Core, Slot, ViewOf, DirOk, Flat, Written, DiskFull, AbsOf;
      CachedLive(S(), i);
      TypeOf(S(), i);
      if vnodes[i].inode.typ == TYPE_DIR {
        return EISDIR;
      }
      ghost var v := ViewOf(S());
      RefsPositive(S(), i);
      ghost var o, base := uio.offset, uio.base;
      err := WriteIo(i, uio);
      if err == ENOSPC {
        FullRoom(S());
      }
      WrittenView(v, i, o, uio.mem[base..base + (uio.offset - o)]);
    }

    /** Truncation through the vnode table; truncating a directory is refused. */
    method TruncateFile(i: nat, len: nat) returns (err: Errno)
      requires Inv() && i in vnodes && len + BLOCKSIZE <= 0x8000_0000
      modifies this, freemap.v
      ensures Inv() && SameTables() && i in old(A()).files
      ensures err == if i == ROOT_LOCATION then EISDIR else EOK
      ensures err == EISDIR ==> S() == old(S())
      ensures err == EOK ==> CutMaps(S(), old(S()), i, KeptBlocks((len + BLOCKSIZE - 1) / BLOCKSIZE))
      ensures err == EOK ==>
        |old(A()).files[i].bytes| == MAXFILE && A() == old(A()).(files := TruncView(old(A()).files, i, len))
      ensures Room(owner) >= old(Room(owner))
    {
      hide Core, Slot, ViewOf, DirMap, LinksTo, NamesUnique, Flat, Entry, ZeroBlocks, CutMaps;
      CachedLive(S(), i);
      if vnodes[i].inode.typ == TYPE_DIR {
        return EISDIR;
      }
      ghost var s, v := S(), ViewOf(S());
      RefsPositive(S(), i);
      Truncate(i, len);
      CutMapsTables(S(), s, i, KeptBlocks((len + BLOCKSIZE - 1) / BLOCKSIZE));
      AbsChange(v, i, TruncView(v, i, len)[i]);
      err := EOK;
    }
  }
}
