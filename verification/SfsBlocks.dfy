/** The steps by which SFS changes its block maps, as functions on the mounted file system, with
    the facts that each keeps the block invariants and how it changes the flat view. */
module SfsBlocks {
  import opened Words
  import opened Bitmap
  import opened Seqs
  import opened SfsLayout

  // ---------------------------------------------------------------- elementary updates

  /** sfs_balloc with the new owner recorded: the block is marked and cleared. */
  function Take(s: Fs, b: nat, o: Owner): Fs
    requires b < |s.disk| && b < |s.owner| && b < 8 * |s.freemap|
  {
    s.(freemap := Mark(s.freemap, b), mapDirty := true,
       disk := s.disk[b := Zeros(BLOCKSIZE)], owner := s.owner[b := o])
  }

  /** sfs_bfree. */
  function Give(s: Fs, b: nat): Fs
    requires b < |s.owner| && b < 8 * |s.freemap|
  {
    s.(freemap := Unmark(s.freemap, b), mapDirty := true, owner := s.owner[b := Free])
  }

  function SetInode(s: Fs, i: nat, n: Inode): Fs
    requires i in s.vnodes
  {
    s.(vnodes := s.vnodes[i := s.vnodes[i].(inode := n, dirty := true)])
  }

  function SetBlock(s: Fs, b: nat, data: Block): Fs
    requires b < |s.disk|
  {
    s.(disk := s.disk[b := data])
  }

  /** A block of words with one word replaced. */
  function PutEntry(blk: Block, k: nat, w: u32): Block
    requires k < WORDS_PER_BLOCK
  {
    PutWords(GetWords(blk)[k := w])
  }

  lemma PutEntryWords(blk: Block, k: nat, w: u32)
    requires k < WORDS_PER_BLOCK
    ensures forall j :: 0 <= j < WORDS_PER_BLOCK ==>
              WordAt(PutEntry(blk, k, w), j) == if j == k then w else WordAt(blk, j)
  {
    var ws := GetWords(blk)[k := w];
    WordsRoundTrip(ws);
    forall j | 0 <= j < WORDS_PER_BLOCK
      ensures WordAt(PutEntry(blk, k, w), j) == if j == k then w else WordAt(blk, j)
    {
      assert GetWords(PutWords(ws))[j] == ws[j];
    }
  }

  // ---------------------------------------------------------------- one block changes hands

  /** The block map of file `j` after block `b` passed from owner `s.owner[b]` to owner `o`. */
  ghost predicate MapDelta(s: Fs, t: Fs, b: nat, o: Owner, j: nat)
    requires j < |s.disk| && j < |t.disk| && b < |s.owner|
  {
    && (forall q :: 0 <= q < FILEBLOCKS ==>
          Slot(t, j, q) == if o == Data(j, q) then b else if s.owner[b] == Data(j, q) then 0 else Slot(s, j, q))
    && Ino(t, j).indirect ==
         (if o == Indirect(j) then b else if s.owner[b] == Indirect(j) then 0 else Ino(s, j).indirect)
  }

  /** `t` is `s` after block `b` passed to owner `o`, either taken from or returned to the free
      blocks; no inode block changes hands. */
  ghost predicate Passed(s: Fs, t: Fs, b: nat, o: Owner) {
    && Core(s) && Shape(t) && t.super == s.super && |t.disk| == |s.disk|
    && b < s.super.nblocks && t.owner == s.owner[b := o]
    && (s.owner[b] == Free <==> o != Free)
    && (s.owner[b] == Free || s.owner[b].Data? || s.owner[b].Indirect?)
    && (o == Free || o.Data? || o.Indirect?)
    && (o.Data? ==> Live(s, o.ino) && o.pos < FILEBLOCKS && Slot(s, o.ino, o.pos) == 0)
    && (o.Indirect? ==> Live(s, o.ino) && Ino(s, o.ino).indirect == 0)
    && (forall c :: 0 <= c < |s.owner| ==> (IsSet(t.freemap, c) <==> if c == b then o != Free else IsSet(s.freemap, c)))
    && (forall j :: Live(s, j) ==> MapDelta(s, t, b, o, j))
  }

  lemma PassedLive(s: Fs, t: Fs, b: nat, o: Owner)
    requires Passed(s, t, b, o)
    ensures forall j {:trigger Live(t, j)} {:trigger Live(s, j)} :: Live(t, j) <==> Live(s, j)
  {
  }

  lemma PassedBlock(s: Fs, t: Fs, b: nat, o: Owner, c: nat)
    requires Passed(s, t, b, o) && c < |t.owner|
    ensures BlockOwned(t, c)
  {
    hide Ino, Slot, IsSet, Clean;
    assert BlockOwned(s, c);
    assert BlockOwned(s, b);
    assert BlockOwned(s, SB_LOCATION);
    PassedLive(s, t, b, o);
    if c != b && (s.owner[c].Data? || s.owner[c].Indirect?) {
      assert MapDelta(s, t, b, o, s.owner[c].ino);
    }
    if o.Data? || o.Indirect? {
      assert MapDelta(s, t, b, o, o.ino);
    }
  }

  lemma PassedMaps(s: Fs, t: Fs, b: nat, o: Owner, j: nat)
    requires Passed(s, t, b, o) && Live(t, j)
    ensures MapsOwned(t, j)
  {
    hide Ino, Slot, IsSet, Clean;
    PassedLive(s, t, b, o);
    assert MapsOwned(s, j) && MapDelta(s, t, b, o, j);
    assert BlockOwned(s, b);
  }

  /** Passing one block on keeps exclusive ownership of all blocks. */
  lemma PassedOwned(s: Fs, t: Fs, b: nat, o: Owner)
    requires Passed(s, t, b, o)
    ensures Owned(t)
  {
    forall c | 0 <= c < |t.owner|
      ensures BlockOwned(t, c)
    {
      PassedBlock(s, t, b, o, c);
    }
    forall j | Live(t, j)
      ensures MapsOwned(t, j)
    {
      PassedMaps(s, t, b, o, j);
    }
  }

  // ---------------------------------------------------------------- views

  /** The same files with the same contents, wherever their blocks may be. */
  ghost predicate SameMeta(s: Fs, t: Fs, i: nat)
    requires i < |s.disk| && i < |t.disk|
  {
    && Ino(t, i).size == Ino(s, i).size && Ino(t, i).typ == Ino(s, i).typ
    && Ino(t, i).links == Ino(s, i).links && Refs(t, i) == Refs(s, i)
  }

  lemma SameFlat(s: Fs, t: Fs, i: nat, j: nat)
    requires i < |s.disk| && j < |t.disk|
    requires forall p :: 0 <= p < FILEBLOCKS ==> BlockOf(t, j, p) == BlockOf(s, i, p)
    ensures Flat(t, j) == Flat(s, i)
  {
    hide BlockOf;
    forall k | 0 <= k < MAXFILE
      ensures Flat(t, j)[k] == Flat(s, i)[k]
    {
      assert BlockOf(t, j, k / BLOCKSIZE) == BlockOf(s, i, k / BLOCKSIZE);
    }
  }

  lemma SameView(s: Fs, t: Fs)
    requires t.super == s.super && |t.disk| == |s.disk| >= s.super.nblocks && |t.owner| == |s.owner|
    requires forall i {:trigger Live(t, i)} {:trigger Live(s, i)} :: Live(t, i) <==> Live(s, i)
    requires forall i :: Live(s, i) ==> SameMeta(s, t, i)
    requires forall i, p :: Live(s, i) && 0 <= p < FILEBLOCKS ==> BlockOf(t, i, p) == BlockOf(s, i, p)
    ensures ViewOf(t) == ViewOf(s)
  {
    hide BlockOf, Ino, Flat;
    forall i: nat | Live(s, i)
      ensures FileOf(t, i) == FileOf(s, i)
    {
      SameFlat(s, t, i, i);
      assert SameMeta(s, t, i);
    }
    assert forall i: nat :: i in ViewOf(t) <==> i in ViewOf(s);
  }

  /** Data blocks keep their contents, a taken block is cleared, and no size, type, link count or
      reference count changes. */
  ghost predicate Contents(s: Fs, t: Fs, b: nat, o: Owner)
    requires Passed(s, t, b, o)
  {
    && (o != Free ==> t.disk[b] == Zeros(BLOCKSIZE))
    && (forall c :: 0 <= c < s.super.nblocks && c != b && s.owner[c].Data? ==> t.disk[c] == s.disk[c])
    && (forall j :: Live(s, j) ==> SameMeta(s, t, j))
  }

  lemma PassedContents(s: Fs, t: Fs, b: nat, o: Owner, j: nat, q: nat)
    requires Passed(s, t, b, o) && Contents(s, t, b, o) && Live(s, j) && q < FILEBLOCKS
    ensures BlockOf(t, j, q) == if s.owner[b] == Data(j, q) then Zeros(BLOCKSIZE) else BlockOf(s, j, q)
  {
    hide Ino, Slot, IsSet, Clean;
    assert MapsOwned(s, j) && MapDelta(s, t, b, o, j);
    assert BlockOwned(s, b);
  }

  /** Taking a block, or returning an indirect block, is invisible in the files. */
  lemma PassedView(s: Fs, t: Fs, b: nat, o: Owner)
    requires Passed(s, t, b, o) && Contents(s, t, b, o) && !s.owner[b].Data?
    ensures ViewOf(t) == ViewOf(s)
  {
    hide Ino, Slot, IsSet, Clean, BlockOf, SameMeta, Owned;
    PassedLive(s, t, b, o);
    forall j, q | Live(s, j) && 0 <= q < FILEBLOCKS
      ensures BlockOf(t, j, q) == BlockOf(s, j, q)
    {
      PassedContents(s, t, b, o, j, q);
    }
    SameView(s, t);
  }

  /** Unchanged cached inodes still match the disk and the superblock is untouched. */
  lemma CleanAfter(s: Fs, t: Fs)
    requires Shape(s) && Clean(s) && Shape(t) && t.super == s.super && t.mapDirty && t.superDirty == s.superDirty
    requires t.disk[SB_LOCATION] == s.disk[SB_LOCATION]
    requires forall i :: i in t.vnodes && !t.vnodes[i].dirty ==>
      i in s.vnodes && t.vnodes[i] == s.vnodes[i] && t.disk[i] == s.disk[i]
    ensures Clean(t)
  {
  }

  lemma FlatSplice(s: Fs, t: Fs, i: nat, p: nat, blk: Block)
    requires i < |s.disk| && i < |t.disk| && p < FILEBLOCKS
    requires forall q :: 0 <= q < FILEBLOCKS ==> BlockOf(t, i, q) == if q == p then blk else BlockOf(s, i, q)
    ensures Flat(t, i) == Splice(Flat(s, i), p * BLOCKSIZE, blk)
  {
    hide BlockOf;
    forall k | 0 <= k < MAXFILE
      ensures Flat(t, i)[k] == Splice(Flat(s, i), p * BLOCKSIZE, blk)[k]
    {
      var q := k / BLOCKSIZE;
      assert BlockOf(t, i, q) == if q == p then blk else BlockOf(s, i, q);
    }
  }

  /** The files with block `p` of file `i` replaced. */
  ghost function BlockView(v: View, i: nat, p: nat, blk: Block): View
    requires i in v && |v[i].bytes| == MAXFILE && p < FILEBLOCKS
  {
    v[i := v[i].(bytes := Splice(v[i].bytes, p * BLOCKSIZE, blk))]
  }

  /** If only block `p` of file `i` changed, only those bytes of that file changed. */
  lemma OneBlockView(s: Fs, t: Fs, i: nat, p: nat, blk: Block)
    requires t.super == s.super && |t.disk| == |s.disk| >= s.super.nblocks && |t.owner| == |s.owner|
    requires forall j {:trigger Live(t, j)} {:trigger Live(s, j)} :: Live(t, j) <==> Live(s, j)
    requires forall j :: Live(s, j) ==> SameMeta(s, t, j)
    requires Live(s, i) && p < FILEBLOCKS
    requires forall j, q :: Live(s, j) && 0 <= q < FILEBLOCKS ==>
               BlockOf(t, j, q) == if j == i && q == p then blk else BlockOf(s, j, q)
    ensures ViewOf(t) == BlockView(ViewOf(s), i, p, blk)
  {
    hide BlockOf, Ino, Flat, Splice;
    forall j: nat | Live(s, j) && j != i
      ensures FileOf(t, j) == FileOf(s, j)
    {
      SameFlat(s, t, j, j);
      assert SameMeta(s, t, j);
    }
    FlatSplice(s, t, i, p, blk);
    assert SameMeta(s, t, i);
    assert forall j: nat :: j in ViewOf(t) <==> j in ViewOf(s);
  }

  /** Returning a data block zeroes exactly its place in its file. */
  lemma PassedZero(s: Fs, t: Fs, b: nat)
    requires Passed(s, t, b, Free) && Contents(s, t, b, Free) && s.owner[b].Data?
    ensures Live(s, s.owner[b].ino) && s.owner[b].pos < FILEBLOCKS
    ensures ViewOf(t) == BlockView(ViewOf(s), s.owner[b].ino, s.owner[b].pos, Zeros(BLOCKSIZE))
  {
    hide Ino, Slot, IsSet, Clean, BlockOf, SameMeta;
    PassedLive(s, t, b, Free);
    assert BlockOwned(s, b);
    forall j, q | Live(s, j) && 0 <= q < FILEBLOCKS
      ensures BlockOf(t, j, q) == if s.owner[b] == Data(j, q) then Zeros(BLOCKSIZE) else BlockOf(s, j, q)
    {
      PassedContents(s, t, b, Free, j, q);
    }
    OneBlockView(s, t, s.owner[b].ino, s.owner[b].pos, Zeros(BLOCKSIZE));
  }

  // ---------------------------------------------------------------- sfs_bmap: allocation

  /** A block that sfs_balloc may hand out. */
  ghost predicate FreeBlock(s: Fs, b: nat) {
    Core(s) && b < s.super.nblocks && s.owner[b] == Free
  }

  ghost function FreeBlocks(owner: seq<Owner>): set<nat> {
    set b: nat | 0 <= b < |owner| && owner[b] == Free
  }

  /** How many blocks are free. */
  ghost function Room(owner: seq<Owner>): nat {
    |FreeBlocks(owner)|
  }

  lemma RoomTake(owner: seq<Owner>, b: nat, o: Owner)
    requires b < |owner| && owner[b] == Free && o != Free
    ensures Room(owner[b := o]) + 1 == Room(owner)
  {
    assert FreeBlocks(owner[b := o]) == FreeBlocks(owner) - {b};
  }

  lemma RoomMore(o1: seq<Owner>, o2: seq<Owner>)
    requires |o1| == |o2| && forall b :: 0 <= b < |o1| && o1[b] == Free ==> o2[b] == Free
    ensures Room(o1) <= Room(o2)
  {
    SubsetSize(FreeBlocks(o1), FreeBlocks(o2));
  }

  /** There is room exactly if some block of the disk is free. */
  lemma RoomLeft(s: Fs)
    requires Core(s)
    ensures Room(s.owner) == 0 <==> forall c :: 0 <= c < s.super.nblocks ==> s.owner[c] != Free
  {
    hide IsSet, Ino, Slot, Clean;
    if Room(s.owner) == 0 {
      forall c | 0 <= c < s.super.nblocks
        ensures s.owner[c] != Free
      {
        assert c !in FreeBlocks(s.owner);
      }
    } else {
      var c :| c in FreeBlocks(s.owner);
      assert BlockOwned(s, c);
      assert c < s.super.nblocks;
    }
  }

  lemma FreeBlockApart(s: Fs, b: nat)
    requires FreeBlock(s, b)
    ensures b != SB_LOCATION
    ensures forall j :: Live(s, j) ==> j != b && Ino(s, j).indirect != b
    ensures forall j, q :: Live(s, j) && 0 <= q < FILEBLOCKS ==> Slot(s, j, q) != b
  {
    hide Ino, Slot, IsSet, Clean;
    assert BlockOwned(s, SB_LOCATION) && BlockOwned(s, b);
    forall j | Live(s, j)
      ensures Ino(s, j).indirect != b && forall q :: 0 <= q < FILEBLOCKS ==> Slot(s, j, q) != b
    {
      assert MapsOwned(s, j);
    }
  }

  ghost function AllocDirect(s: Fs, i: nat, p: nat, b: nat): Fs
    requires FreeBlock(s, b) && i in s.vnodes && p < NDIRECT
  {
    var n := s.vnodes[i].inode;
    SetInode(Take(s, b, Data(i, p)), i, n.(direct := n.direct[p := b]))
  }

  lemma AllocDirectMaps(s: Fs, i: nat, p: nat, b: nat)
    requires FreeBlock(s, b) && i in s.vnodes && p < NDIRECT && Slot(s, i, p) == 0
    ensures forall j :: Live(s, j) ==>
      MapDelta(s, AllocDirect(s, i, p, b), b, Data(i, p), j) && SameMeta(s, AllocDirect(s, i, p, b), j)
  {
    hide GetInode, WordAt, IsSet, Owned, MapSlice;
    FreeBlockApart(s, b);
    var t := AllocDirect(s, i, p, b);
    forall j | Live(s, j)
      ensures MapDelta(s, t, b, Data(i, p), j) && SameMeta(s, t, j)
    {
      assert j != i ==> Ino(t, j) == Ino(s, j);
    }
  }

  lemma AllocDirectKeeps(s: Fs, i: nat, p: nat, b: nat)
    requires FreeBlock(s, b) && i in s.vnodes && p < NDIRECT && Slot(s, i, p) == 0
    ensures Core(AllocDirect(s, i, p, b))
    ensures ViewOf(AllocDirect(s, i, p, b)) == ViewOf(s)
    ensures Slot(AllocDirect(s, i, p, b), i, p) == b
  {
    hide GetInode, WordAt, IsSet, Owned, MapSlice, SameMeta;
    var t := AllocDirect(s, i, p, b);
    MarkBits(s.freemap, b);
    FreeBlockApart(s, b);
    AllocDirectMaps(s, i, p, b);
    PassedOwned(s, t, b, Data(i, p));
    PassedView(s, t, b, Data(i, p));
    CleanAfter(s, t);
    assert MapDelta(s, t, b, Data(i, p), i);
  }

  ghost function AllocIndirect(s: Fs, i: nat, b: nat): Fs
    requires FreeBlock(s, b) && i in s.vnodes
  {
    SetInode(Take(s, b, Indirect(i)), i, s.vnodes[i].inode.(indirect := b))
  }

  lemma AllocIndirectMaps(s: Fs, i: nat, b: nat)
    requires FreeBlock(s, b) && i in s.vnodes && Ino(s, i).indirect == 0
    ensures forall j :: Live(s, j) ==>
      MapDelta(s, AllocIndirect(s, i, b), b, Indirect(i), j) && SameMeta(s, AllocIndirect(s, i, b), j)
  {
    hide GetInode, WordAt, IsSet, Owned, MapSlice;
    FreeBlockApart(s, b);
    ZeroWords(WORDS_PER_BLOCK);
    assert forall k :: 0 <= k < WORDS_PER_BLOCK ==> WordAt(Zeros(BLOCKSIZE), k) == GetWords(Zeros(BLOCKSIZE))[k];
    var t := AllocIndirect(s, i, b);
    forall j | Live(s, j)
      ensures MapDelta(s, t, b, Indirect(i), j) && SameMeta(s, t, j)
    {
      assert j != i ==> Ino(t, j) == Ino(s, j);
    }
  }

  /** A fresh indirect block maps nothing. */
  lemma AllocIndirectKeeps(s: Fs, i: nat, b: nat)
    requires FreeBlock(s, b) && i in s.vnodes && Ino(s, i).indirect == 0
    ensures Core(AllocIndirect(s, i, b))
    ensures ViewOf(AllocIndirect(s, i, b)) == ViewOf(s)
    ensures forall p :: NDIRECT <= p < FILEBLOCKS ==> Slot(AllocIndirect(s, i, b), i, p) == 0
  {
    hide GetInode, WordAt, IsSet, Owned, MapSlice, SameMeta;
    var t := AllocIndirect(s, i, b);
    MarkBits(s.freemap, b);
    FreeBlockApart(s, b);
    ZeroWords(WORDS_PER_BLOCK);
    assert forall k :: 0 <= k < WORDS_PER_BLOCK ==> WordAt(Zeros(BLOCKSIZE), k) == GetWords(Zeros(BLOCKSIZE))[k];
    AllocIndirectMaps(s, i, b);
    PassedOwned(s, t, b, Indirect(i));
    PassedView(s, t, b, Indirect(i));
    CleanAfter(s, t);
    assert MapDelta(s, t, b, Indirect(i), i);
  }

  ghost function AllocEntry(s: Fs, i: nat, p: nat, b: nat): Fs
    requires FreeBlock(s, b) && i in s.vnodes && NDIRECT <= p < FILEBLOCKS
    requires Ino(s, i).indirect < |s.disk|
  {
    SetBlock(Take(s, b, Data(i, p)), Ino(s, i).indirect, PutEntry(s.disk[Ino(s, i).indirect], p - NDIRECT, b))
  }

  lemma IndirectApart(s: Fs, i: nat)
    requires Core(s) && Live(s, i) && Ino(s, i).indirect != 0
    ensures Ino(s, i).indirect < s.super.nblocks && s.owner[Ino(s, i).indirect] == Indirect(i)
    ensures forall j :: Live(s, j) ==> j != Ino(s, i).indirect
    ensures forall j :: Live(s, j) && j != i ==> Ino(s, j).indirect != Ino(s, i).indirect
    ensures forall j, q :: Live(s, j) && 0 <= q < FILEBLOCKS ==> Slot(s, j, q) != Ino(s, i).indirect
  {
    hide Ino, Slot, IsSet, Clean;
    assert MapsOwned(s, i);
    forall j | Live(s, j)
      ensures j != i ==> Ino(s, j).indirect != Ino(s, i).indirect
      ensures forall q :: 0 <= q < FILEBLOCKS ==> Slot(s, j, q) != Ino(s, i).indirect
    {
      assert MapsOwned(s, j);
    }
  }

  lemma AllocEntryKeeps(s: Fs, i: nat, p: nat, b: nat)
    requires FreeBlock(s, b) && i in s.vnodes && NDIRECT <= p < FILEBLOCKS
    requires Ino(s, i).indirect != 0 && Slot(s, i, p) == 0
    ensures Ino(s, i).indirect < |s.disk|
    ensures Core(AllocEntry(s, i, p, b))
    ensures ViewOf(AllocEntry(s, i, p, b)) == ViewOf(s)
    ensures Slot(AllocEntry(s, i, p, b), i, p) == b
  {
    hide GetInode, WordAt, IsSet, Owned, MapSlice, PutEntry;
    IndirectApart(s, i);
    var t := AllocEntry(s, i, p, b);
    MarkBits(s.freemap, b);
    FreeBlockApart(s, b);
    PutEntryWords(s.disk[Ino(s, i).indirect], p - NDIRECT, b);
    forall j | Live(s, j)
      ensures MapDelta(s, t, b, Data(i, p), j) && SameMeta(s, t, j)
    {
      assert Ino(t, j) == Ino(s, j);
    }
    PassedOwned(s, t, b, Data(i, p));
    PassedView(s, t, b, Data(i, p));
    CoreSuper(s);
    CleanAfter(s, t);
    assert MapDelta(s, t, b, Data(i, p), i);
  }

  lemma CoreSuper(s: Fs)
    requires Core(s)
    ensures s.owner[SB_LOCATION] == SuperBlock
  {
    hide IsSet, Ino, Slot;
    assert BlockOwned(s, SB_LOCATION);
  }

  // ---------------------------------------------------------------- sfs_truncate: release

  ghost function FreeDirect(s: Fs, i: nat, p: nat): Fs
    requires Core(s) && i in s.vnodes && p < NDIRECT && Slot(s, i, p) < s.super.nblocks
  {
    var n := s.vnodes[i].inode;
    SetInode(Give(s, n.direct[p]), i, n.(direct := n.direct[p := 0]))
  }

  lemma FreeDirectMaps(s: Fs, i: nat, p: nat)
    requires Core(s) && i in s.vnodes && p < NDIRECT && Slot(s, i, p) != 0
    ensures Slot(s, i, p) < s.super.nblocks && s.owner[Slot(s, i, p)] == Data(i, p)
    ensures forall j :: Live(s, j) ==>
      MapDelta(s, FreeDirect(s, i, p), Slot(s, i, p), Free, j) && SameMeta(s, FreeDirect(s, i, p), j)
  {
    hide GetInode, WordAt, IsSet, MapSlice;
    assert MapsOwned(s, i);
    var t := FreeDirect(s, i, p);
    forall j | Live(s, j)
      ensures MapDelta(s, t, Slot(s, i, p), Free, j) && SameMeta(s, t, j)
    {
      assert MapsOwned(s, j);
      assert j != i ==> Ino(t, j) == Ino(s, j);
    }
  }

  lemma FreeDirectKeeps(s: Fs, i: nat, p: nat)
    requires Core(s) && i in s.vnodes && p < NDIRECT && Slot(s, i, p) != 0
    ensures Slot(s, i, p) < s.super.nblocks && Core(FreeDirect(s, i, p))
    ensures ViewOf(FreeDirect(s, i, p)) == BlockView(ViewOf(s), i, p, Zeros(BLOCKSIZE))
    ensures s.owner[Slot(s, i, p)] == Data(i, p) && MapDelta(s, FreeDirect(s, i, p), Slot(s, i, p), Free, i)
  {
    hide GetInode, WordAt, IsSet, MapSlice, Owned, MapDelta, SameMeta;
    FreeDirectMaps(s, i, p);
    var t := FreeDirect(s, i, p);
    var b := Slot(s, i, p);
    UnmarkBits(s.freemap, b);
    PassedOwned(s, t, b, Free);
    PassedZero(s, t, b);
    CleanAfter(s, t);
  }

  ghost function FreeEntry(s: Fs, i: nat, p: nat): Fs
    requires Core(s) && i in s.vnodes && NDIRECT <= p < FILEBLOCKS
    requires Slot(s, i, p) < s.super.nblocks && Ino(s, i).indirect < |s.disk|
  {
    SetBlock(Give(s, Slot(s, i, p)), Ino(s, i).indirect, PutEntry(s.disk[Ino(s, i).indirect], p - NDIRECT, 0))
  }

  lemma FreeEntryMaps(s: Fs, i: nat, p: nat)
    requires Core(s) && i in s.vnodes && NDIRECT <= p < FILEBLOCKS && Slot(s, i, p) != 0
    ensures Slot(s, i, p) < s.super.nblocks && Ino(s, i).indirect < |s.disk|
    ensures s.owner[Slot(s, i, p)] == Data(i, p)
    ensures forall j :: Live(s, j) ==>
      MapDelta(s, FreeEntry(s, i, p), Slot(s, i, p), Free, j) && SameMeta(s, FreeEntry(s, i, p), j)
  {
    hide GetInode, WordAt, IsSet, MapSlice, PutEntry;
    assert MapsOwned(s, i);
    IndirectApart(s, i);
    PutEntryWords(s.disk[Ino(s, i).indirect], p - NDIRECT, 0);
    var t := FreeEntry(s, i, p);
    forall j | Live(s, j)
      ensures MapDelta(s, t, Slot(s, i, p), Free, j) && SameMeta(s, t, j)
    {
      assert MapsOwned(s, j);
      assert Ino(t, j) == Ino(s, j);
    }
  }

  lemma FreeEntryKeeps(s: Fs, i: nat, p: nat)
    requires Core(s) && i in s.vnodes && NDIRECT <= p < FILEBLOCKS && Slot(s, i, p) != 0
    ensures Slot(s, i, p) < s.super.nblocks && Ino(s, i).indirect < |s.disk|
    ensures Core(FreeEntry(s, i, p))
    ensures ViewOf(FreeEntry(s, i, p)) == BlockView(ViewOf(s), i, p, Zeros(BLOCKSIZE))
    ensures s.owner[Slot(s, i, p)] == Data(i, p) && MapDelta(s, FreeEntry(s, i, p), Slot(s, i, p), Free, i)
  {
    hide GetInode, WordAt, IsSet, MapSlice, PutEntry, Owned, MapDelta, SameMeta;
    FreeEntryMaps(s, i, p);
    IndirectApart(s, i);
    var t := FreeEntry(s, i, p);
    var b := Slot(s, i, p);
    UnmarkBits(s.freemap, b);
    PutEntryWords(s.disk[Ino(s, i).indirect], p - NDIRECT, 0);
    PassedOwned(s, t, b, Free);
    PassedZero(s, t, b);
    CoreSuper(s);
    CleanAfter(s, t);
  }

  ghost function FreeIndirect(s: Fs, i: nat): Fs
    requires Core(s) && i in s.vnodes && Ino(s, i).indirect < s.super.nblocks
  {
    SetInode(Give(s, Ino(s, i).indirect), i, s.vnodes[i].inode.(indirect := 0))
  }

  lemma FreeIndirectMaps(s: Fs, i: nat)
    requires Core(s) && i in s.vnodes && Ino(s, i).indirect != 0
    requires forall p :: NDIRECT <= p < FILEBLOCKS ==> Slot(s, i, p) == 0
    ensures Ino(s, i).indirect < s.super.nblocks && s.owner[Ino(s, i).indirect] == Indirect(i)
    ensures forall j :: Live(s, j) ==>
      MapDelta(s, FreeIndirect(s, i), Ino(s, i).indirect, Free, j) && SameMeta(s, FreeIndirect(s, i), j)
  {
    hide GetInode, WordAt, IsSet, MapSlice, Owned;
    IndirectApart(s, i);
    var t := FreeIndirect(s, i);
    forall j | Live(s, j)
      ensures MapDelta(s, t, Ino(s, i).indirect, Free, j) && SameMeta(s, t, j)
    {
      assert j != i ==> Ino(t, j) == Ino(s, j);
    }
  }

  lemma FreeIndirectKeeps(s: Fs, i: nat)
    requires Core(s) && i in s.vnodes && Ino(s, i).indirect != 0
    requires forall p :: NDIRECT <= p < FILEBLOCKS ==> Slot(s, i, p) == 0
    ensures Ino(s, i).indirect < s.super.nblocks
    ensures Core(FreeIndirect(s, i))
    ensures ViewOf(FreeIndirect(s, i)) == ViewOf(s)
    ensures s.owner[Ino(s, i).indirect] == Indirect(i) && MapDelta(s, FreeIndirect(s, i), Ino(s, i).indirect, Free, i)
  {
    hide GetInode, WordAt, IsSet, MapSlice, Owned, MapDelta, SameMeta;
    IndirectApart(s, i);
    FreeIndirectMaps(s, i);
    var t := FreeIndirect(s, i);
    var b := Ino(s, i).indirect;
    UnmarkBits(s.freemap, b);
    PassedOwned(s, t, b, Free);
    PassedView(s, t, b, Free);
    CleanAfter(s, t);
  }

  // ---------------------------------------------------------------- changes that move no block

  /** Cached inodes that are new, changed or unwritten are dirty, and the reserved blocks are untouched. */
  lemma CleanKept(s: Fs, t: Fs)
    requires Shape(s) && Clean(s) && Shape(t) && t.super == s.super && t.superDirty == s.superDirty
    requires t.freemap == s.freemap && t.mapDirty == s.mapDirty
    requires t.disk[SB_LOCATION] == s.disk[SB_LOCATION]
    requires forall b :: MAP_LOCATION <= b < MAP_LOCATION + BitBlocks(s.super.nblocks) ==> t.disk[b] == s.disk[b]
    requires forall i :: i in t.vnodes && !t.vnodes[i].dirty ==> t.disk[i] == PutInode(t.vnodes[i].inode)
    ensures Clean(t)
  {
    hide PutInode, PutSuper;
    forall j | !t.mapDirty && 0 <= j < BitBlocks(t.super.nblocks)
      ensures t.disk[MAP_LOCATION + j] == MapSlice(t, j)
    {
      assert s.disk[MAP_LOCATION + j] == MapSlice(s, j);
    }
  }

  /** `t` has the same inodes, block maps and owners as `s`. */
  ghost predicate SameMaps(s: Fs, t: Fs) {
    && Core(s) && Shape(t) && t.super == s.super && |t.disk| == |s.disk|
    && t.owner == s.owner && t.freemap == s.freemap
    && (forall j :: Live(s, j) ==> Ino(t, j).indirect == Ino(s, j).indirect)
    && (forall j, q :: Live(s, j) && 0 <= q < FILEBLOCKS ==> Slot(t, j, q) == Slot(s, j, q))
  }

  lemma SameMapsOwned(s: Fs, t: Fs)
    requires SameMaps(s, t)
    ensures Owned(t)
  {
    hide Ino, Slot, IsSet, Clean;
    assert forall j {:trigger Live(t, j)} :: Live(t, j) <==> Live(s, j);
    forall c | 0 <= c < |t.owner|
      ensures BlockOwned(t, c)
    {
      assert BlockOwned(s, c);
    }
    forall j | Live(t, j)
      ensures MapsOwned(t, j)
    {
      assert MapsOwned(s, j);
    }
  }

  lemma DataBlockApart(s: Fs, b: nat)
    requires Core(s) && b < s.super.nblocks && (s.owner[b].Data? || s.owner[b] == Free)
    ensures b != SB_LOCATION
    ensures !(MAP_LOCATION <= b < MAP_LOCATION + BitBlocks(s.super.nblocks))
    ensures forall j :: Live(s, j) ==> j != b && Ino(s, j).indirect != b
  {
    hide Ino, Slot, IsSet, Clean;
    assert BlockOwned(s, SB_LOCATION) && BlockOwned(s, b);
    forall j | Live(s, j)
      ensures Ino(s, j).indirect != b
    {
      assert MapsOwned(s, j);
    }
  }

  lemma SetBlockMaps(s: Fs, b: nat, blk: Block)
    requires Core(s) && b < s.super.nblocks && (s.owner[b].Data? || s.owner[b] == Free)
    ensures SameMaps(s, SetBlock(s, b, blk)) && Core(SetBlock(s, b, blk))
    ensures forall j :: Live(s, j) ==> SameMeta(s, SetBlock(s, b, blk), j)
  {
    hide GetInode, WordAt, IsSet, Owned;
    var t := SetBlock(s, b, blk);
    DataBlockApart(s, b);
    forall j | Live(s, j)
      ensures Ino(t, j) == Ino(s, j)
      ensures forall q :: 0 <= q < FILEBLOCKS ==> Slot(t, j, q) == Slot(s, j, q)
    {
    }
    SameMapsOwned(s, t);
    CleanKept(s, t);
  }

  /** Writing the block that holds block `p` of file `i` changes those bytes of that file only. */
  lemma WriteDataKeeps(s: Fs, i: nat, p: nat, blk: Block)
    requires Core(s) && Live(s, i) && p < FILEBLOCKS && Slot(s, i, p) != 0
    ensures Slot(s, i, p) < s.super.nblocks
    ensures Core(SetBlock(s, Slot(s, i, p), blk))
    ensures ViewOf(SetBlock(s, Slot(s, i, p), blk)) == BlockView(ViewOf(s), i, p, blk)
    ensures Slot(SetBlock(s, Slot(s, i, p), blk), i, p) == Slot(s, i, p)
  {
    hide Ino, Slot, IsSet, Clean;
    assert MapsOwned(s, i);
    var b := Slot(s, i, p);
    var t := SetBlock(s, b, blk);
    SetBlockMaps(s, b, blk);
    forall j, q | Live(s, j) && 0 <= q < FILEBLOCKS
      ensures BlockOf(t, j, q) == if j == i && q == p then blk else BlockOf(s, j, q)
    {
      assert MapsOwned(s, j);
    }
    OneBlockView(s, t, i, p, blk);
  }

  /** The contents of a free block do not matter. */
  lemma FreeContentsKeep(s: Fs, b: nat, blk: Block)
    requires FreeBlock(s, b)
    ensures Core(SetBlock(s, b, blk)) && ViewOf(SetBlock(s, b, blk)) == ViewOf(s) && SameMaps(s, SetBlock(s, b, blk))
  {
    hide Ino, Slot, IsSet, Clean;
    var t := SetBlock(s, b, blk);
    SetBlockMaps(s, b, blk);
    forall j, q | Live(s, j) && 0 <= q < FILEBLOCKS
      ensures BlockOf(t, j, q) == BlockOf(s, j, q)
    {
      assert MapsOwned(s, j);
    }
    SameView(s, t);
  }

  /** If files other than `i` look the same, the views differ at `i` only. */
  lemma OneFileView(s: Fs, t: Fs, i: nat)
    requires t.super == s.super && |t.disk| == |s.disk| >= s.super.nblocks && |t.owner| == |s.owner|
    requires forall j {:trigger Live(t, j)} {:trigger Live(s, j)} :: j != i ==> (Live(t, j) <==> Live(s, j))
    requires forall j :: j != i && Live(s, j) ==> SameMeta(s, t, j)
    requires forall j, q :: j != i && Live(s, j) && 0 <= q < FILEBLOCKS ==> BlockOf(t, j, q) == BlockOf(s, j, q)
    ensures ViewOf(t) == if Live(t, i) then ViewOf(s)[i := FileOf(t, i)] else ViewOf(s) - {i}
  {
    hide BlockOf, Ino, Flat;
    forall j: nat | Live(s, j) && j != i
      ensures FileOf(t, j) == FileOf(s, j)
    {
      SameFlat(s, t, j, j);
      assert SameMeta(s, t, j);
    }
    assert forall j: nat :: j != i ==> (j in ViewOf(t) <==> j in ViewOf(s));
  }

  /** Changing size or link count of a cached inode moves no block. */
  lemma SetMetaKeeps(s: Fs, i: nat, n: Inode)
    requires Core(s) && i in s.vnodes
    requires n.direct == Ino(s, i).direct && n.indirect == Ino(s, i).indirect && n.typ == Ino(s, i).typ
    ensures Core(SetInode(s, i, n))
    ensures ViewOf(SetInode(s, i, n)) == ViewOf(s)[i := ViewOf(s)[i].(size := n.size, links := n.links)]
  {
    hide GetInode, WordAt, IsSet, Owned;
    var t := SetInode(s, i, n);
    forall j | Live(s, j)
      ensures forall q :: 0 <= q < FILEBLOCKS ==> Slot(t, j, q) == Slot(s, j, q) && BlockOf(t, j, q) == BlockOf(s, j, q)
    {
    }
    SameMapsOwned(s, t);
    CleanKept(s, t);
    SameFlat(s, t, i, i);
    OneFileView(s, t, i);
    assert FileOf(t, i) == ViewOf(s)[i].(size := n.size, links := n.links);
  }

  function SetRefs(s: Fs, i: nat, r: nat): Fs
    requires i in s.vnodes
  {
    s.(vnodes := s.vnodes[i := s.vnodes[i].(refs := r)])
  }

  lemma SetRefsKeeps(s: Fs, i: nat, r: nat)
    requires Core(s) && i in s.vnodes && r > 0
    ensures Core(SetRefs(s, i, r))
    ensures ViewOf(SetRefs(s, i, r)) == ViewOf(s)[i := ViewOf(s)[i].(refs := r)]
  {
    hide GetInode, WordAt, IsSet, Owned;
    var t := SetRefs(s, i, r);
    forall j | Live(s, j)
      ensures forall q :: 0 <= q < FILEBLOCKS ==> Slot(t, j, q) == Slot(s, j, q) && BlockOf(t, j, q) == BlockOf(s, j, q)
    {
    }
    SameMapsOwned(s, t);
    CleanKept(s, t);
    SameFlat(s, t, i, i);
    OneFileView(s, t, i);
    assert FileOf(t, i) == ViewOf(s)[i].(refs := r);
  }

  // ---------------------------------------------------------------- no leaks, no sharing

  /** File `i` uses block `b` for its data or its indirect block. */
  ghost predicate UsedBy(s: Fs, b: nat, i: nat)
    requires i < |s.disk|
  {
    Ino(s, i).indirect == b || exists p :: 0 <= p < FILEBLOCKS && Slot(s, i, p) == b
  }

  /** A block of the disk is marked in use exactly when it is reserved, holds a live inode, or a live file uses it. */
  lemma NothingLeaks(s: Fs, b: nat)
    requires Core(s) && b < s.super.nblocks
    ensures IsSet(s.freemap, b) <==>
              b < MAP_LOCATION + BitBlocks(s.super.nblocks) || Live(s, b) || exists i :: Live(s, i) && UsedBy(s, b, i)
  {
    hide IsSet, Ino, Slot, Clean;
    assert BlockOwned(s, b);
    if exists i :: Live(s, i) && UsedBy(s, b, i) {
      var i :| Live(s, i) && UsedBy(s, b, i);
      assert MapsOwned(s, i);
    }
    if s.owner[b].Indirect? || s.owner[b].Data? {
      assert UsedBy(s, b, s.owner[b].ino);
    }
  }

  /** No block has two uses: not as two data blocks, as data and indirect block, or as either and an inode. */
  lemma NothingShared(s: Fs, i: nat, j: nat, p: nat, q: nat)
    requires Core(s) && Live(s, i) && Live(s, j) && p < FILEBLOCKS && q < FILEBLOCKS
    ensures Slot(s, i, p) != 0 && Slot(s, i, p) == Slot(s, j, q) ==> i == j && p == q
    ensures Ino(s, i).indirect != 0 && Ino(s, i).indirect == Ino(s, j).indirect ==> i == j
    ensures Slot(s, i, p) != 0 ==> Slot(s, i, p) != Ino(s, j).indirect && !Live(s, Slot(s, i, p))
    ensures Ino(s, i).indirect != 0 ==> !Live(s, Ino(s, i).indirect)
  {
    hide IsSet, Ino, Slot, Clean;
    assert MapsOwned(s, i) && MapsOwned(s, j);
  }
}
