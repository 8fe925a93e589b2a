/** The steps by which inodes enter and leave memory and the disk: loading, creating, writing back,
    dropping and discarding a vnode. */
module SfsInodes {
  import opened Words
  import opened Bitmap
  import opened Seqs
  import opened SfsLayout
  import opened SfsBlocks

  lemma WithoutTable(s: Fs, k: nat)
    requires Shape(s) && k < |s.table|
    ensures forall j :: j in Without(s.table, k) <==> j in s.table && j != s.table[k]
    ensures forall a :: 0 <= a < |Without(s.table, k)| ==>
      Without(s.table, k)[a] in s.vnodes && Without(s.table, k)[a] != s.table[k]
    ensures forall a, b :: 0 <= a < b < |Without(s.table, k)| ==> Without(s.table, k)[a] != Without(s.table, k)[b]
  {
    var w := Without(s.table, k);
    hide Without;
    WithoutAt(s.table, k);
    forall j
      ensures j in w <==> j in s.table && j != s.table[k]
    {
      if j in s.table && j != s.table[k] {
        var a :| 0 <= a < |s.table| && s.table[a] == j;
        assert w[if a < k then a else a - 1] == j;
      }
    }
  }

  // ---------------------------------------------------------------- sfs_loadvnode

  /** Loading an inode that is not in memory; a new object gets its type here and is dirty. */
  ghost function Load(s: Fs, i: nat, typ: u16): Fs
    requires i < |s.disk|
  {
    var n := GetInode(s.disk[i]);
    s.(vnodes := s.vnodes[i := if typ == TYPE_INVAL then Vnode(n, false, 1) else Vnode(n.(typ := typ), true, 1)],
       table := s.table + [i])
  }

  ghost function LoadView(v: View, i: nat, typ: u16): View
    requires i in v
  {
    v[i := if typ == TYPE_INVAL then v[i].(refs := 1) else v[i].(refs := 1, typ := typ)]
  }

  lemma LoadMaps(s: Fs, i: nat, typ: u16)
    requires Core(s) && Live(s, i) && i !in s.vnodes
    ensures forall j :: Live(s, j) && j != i ==> Ino(Load(s, i, typ), j) == Ino(s, j)
    ensures forall j, q :: Live(s, j) && 0 <= q < FILEBLOCKS ==>
              Slot(Load(s, i, typ), j, q) == Slot(s, j, q) && BlockOf(Load(s, i, typ), j, q) == BlockOf(s, j, q)
  {
    hide GetInode, PutInode, WordAt, IsSet, Owned, Clean;
  }

  lemma LoadKeeps(s: Fs, i: nat, typ: u16)
    requires Core(s) && Live(s, i) && i !in s.vnodes
    ensures Core(Load(s, i, typ))
    ensures ViewOf(Load(s, i, typ)) == LoadView(ViewOf(s), i, typ)
  {
    hide GetInode, PutInode, WordAt, IsSet, Owned;
    var t := Load(s, i, typ);
    InodeBlockRoundTrip(s.disk[i]);
    LoadMaps(s, i, typ);
    SameMapsOwned(s, t);
    CleanKept(s, t);
    SameFlat(s, t, i, i);
    OneFileView(s, t, i);
    assert FileOf(t, i) == LoadView(ViewOf(s), i, typ)[i];
  }

  // ---------------------------------------------------------------- sfs_makeobj

  /** A cleared block as a file: no type yet, nothing mapped, not in memory. */
  function RawFile(): FileView {
    FileView(0, TYPE_INVAL, 0, 0, Zeros(MAXFILE))
  }

  function NewFile(): FileView {
    FileView(0, TYPE_FILE, 0, 1, Zeros(MAXFILE))
  }

  lemma TakeInodeMaps(s: Fs, b: nat)
    requires FreeBlock(s, b)
    ensures b !in s.vnodes && Shape(Take(s, b, INode)) && Live(Take(s, b, INode), b)
    ensures forall j :: j != b ==> (Live(Take(s, b, INode), j) <==> Live(s, j))
    ensures forall j :: Live(s, j) ==> Ino(Take(s, b, INode), j) == Ino(s, j)
    ensures forall j, q :: Live(s, j) && 0 <= q < FILEBLOCKS ==> Slot(Take(s, b, INode), j, q) == Slot(s, j, q)
    ensures forall q :: 0 <= q < FILEBLOCKS ==> Slot(Take(s, b, INode), b, q) == 0
    ensures Ino(Take(s, b, INode), b) == EmptyInode(TYPE_INVAL)
  {
    hide GetInode, WordAt, IsSet, Owned, Clean;
    FreeBlockApart(s, b);
    ZeroInode();
  }

  lemma TakeInodeOwned(s: Fs, b: nat)
    requires FreeBlock(s, b)
    ensures Shape(Take(s, b, INode)) && Owned(Take(s, b, INode))
  {
    hide Ino, Slot, IsSet, Clean;
    var t := Take(s, b, INode);
    TakeInodeMaps(s, b);
    MarkBits(s.freemap, b);
    forall c | 0 <= c < |t.owner|
      ensures BlockOwned(t, c)
    {
      assert BlockOwned(s, c);
    }
    forall j | Live(t, j)
      ensures MapsOwned(t, j)
    {
      assert j != b ==> MapsOwned(s, j);
    }
  }

  /** A block taken for an inode is an untyped empty file; no other file changes. */
  lemma TakeInodeKeeps(s: Fs, b: nat)
    requires FreeBlock(s, b)
    ensures Core(Take(s, b, INode)) && Live(Take(s, b, INode), b) && b !in s.vnodes && b !in ViewOf(s)
    ensures ViewOf(Take(s, b, INode)) == ViewOf(s)[b := RawFile()]
    ensures Ino(Take(s, b, INode), b) == EmptyInode(TYPE_INVAL)
  {
    hide GetInode, WordAt, IsSet, Ino, Slot, Owned, MapSlice, PutInode;
    var t := Take(s, b, INode);
    TakeInodeOwned(s, b);
    TakeInodeMaps(s, b);
    FreeBlockApart(s, b);
    CleanAfter(s, t);
    forall j, q | j != b && Live(s, j) && 0 <= q < FILEBLOCKS
      ensures BlockOf(t, j, q) == BlockOf(s, j, q)
    {
    }
    OneFileView(s, t, b);
    TakeInodeFile(s, b);
  }

  lemma TakeInodeFile(s: Fs, b: nat)
    requires FreeBlock(s, b)
    ensures FileOf(Take(s, b, INode), b) == RawFile()
  {
    hide GetInode, WordAt, IsSet, Slot, Owned, Clean;
    var t := Take(s, b, INode);
    TakeInodeMaps(s, b);
    forall k | 0 <= k < MAXFILE
      ensures Flat(t, b)[k] == 0
    {
      assert Slot(t, b, k / BLOCKSIZE) == 0;
    }
    assert Flat(t, b) == Zeros(MAXFILE);
  }

  // ---------------------------------------------------------------- sfs_sync_inode

  ghost function SyncInode(s: Fs, i: nat): Fs
    requires i in s.vnodes && i < |s.disk|
  {
    s.(disk := s.disk[i := PutInode(s.vnodes[i].inode)], vnodes := s.vnodes[i := s.vnodes[i].(dirty := false)])
  }

  lemma InodeBlockApart(s: Fs, i: nat)
    requires Core(s) && Live(s, i)
    ensures i != SB_LOCATION && !(MAP_LOCATION <= i < MAP_LOCATION + BitBlocks(s.super.nblocks))
    ensures forall j :: Live(s, j) ==> Ino(s, j).indirect != i
    ensures forall j, q :: Live(s, j) && 0 <= q < FILEBLOCKS ==> Slot(s, j, q) != i
  {
    hide Ino, Slot, IsSet, Clean;
    assert BlockOwned(s, SB_LOCATION) && BlockOwned(s, i);
    forall j | Live(s, j)
      ensures Ino(s, j).indirect != i && forall q :: 0 <= q < FILEBLOCKS ==> Slot(s, j, q) != i
    {
      assert MapsOwned(s, j);
    }
  }

  /** Writing an inode back changes no file and leaves it clean. */
  lemma SyncInodeKeeps(s: Fs, i: nat)
    requires Core(s) && i in s.vnodes
    ensures Core(SyncInode(s, i)) && ViewOf(SyncInode(s, i)) == ViewOf(s)
  {
    hide GetInode, PutInode, WordAt, IsSet, Owned;
    var t := SyncInode(s, i);
    InodeBlockApart(s, i);
    forall j | Live(s, j)
      ensures Ino(t, j) == Ino(s, j)
      ensures forall q :: 0 <= q < FILEBLOCKS ==> Slot(t, j, q) == Slot(s, j, q)
      ensures forall q :: 0 <= q < FILEBLOCKS ==> BlockOf(t, j, q) == BlockOf(s, j, q)
    {
    }
    SameMapsOwned(s, t);
    CleanKept(s, t);
    SameView(s, t);
  }

  // ---------------------------------------------------------------- sfs_reclaim

  ghost function Drop(s: Fs, k: nat): Fs
    requires k < |s.table|
  {
    s.(vnodes := s.vnodes - {s.table[k]}, table := Without(s.table, k))
  }

  /** Dropping a clean vnode keeps the file: its inode is on disk. */
  lemma DropKeeps(s: Fs, k: nat)
    requires Core(s) && k < |s.table| && !s.vnodes[s.table[k]].dirty
    ensures Core(Drop(s, k))
    ensures ViewOf(Drop(s, k)) == ViewOf(s)[s.table[k] := ViewOf(s)[s.table[k]].(refs := 0)]
  {
    hide GetInode, PutInode, WordAt, IsSet, Owned, Without;
    var t := Drop(s, k);
    var i := s.table[k];
    WithoutTable(s, k);
    InodeRoundTrip(s.vnodes[i].inode);
    assert s.disk[i] == PutInode(s.vnodes[i].inode);
    forall j | Live(s, j)
      ensures Ino(t, j) == Ino(s, j)
      ensures forall q :: 0 <= q < FILEBLOCKS ==> Slot(t, j, q) == Slot(s, j, q) && BlockOf(t, j, q) == BlockOf(s, j, q)
    {
    }
    SameMapsOwned(s, t);
    CleanKept(s, t);
    SameFlat(s, t, i, i);
    OneFileView(s, t, i);
    assert FileOf(t, i) == ViewOf(s)[i].(refs := 0);
  }

  ghost function Discard(s: Fs, k: nat): Fs
    requires Core(s) && k < |s.table|
  {
    Drop(Give(s, s.table[k]), k)
  }

  lemma DiscardMaps(s: Fs, k: nat)
    requires Core(s) && k < |s.table|
    ensures Shape(Discard(s, k))
    ensures forall j :: Live(Discard(s, k), j) <==> Live(s, j) && j != s.table[k]
    ensures forall j :: Live(s, j) && j != s.table[k] ==>
      Ino(Discard(s, k), j) == Ino(s, j) && Refs(Discard(s, k), j) == Refs(s, j)
    ensures forall j, q :: Live(s, j) && j != s.table[k] && 0 <= q < FILEBLOCKS ==>
              Slot(Discard(s, k), j, q) == Slot(s, j, q) && BlockOf(Discard(s, k), j, q) == BlockOf(s, j, q)
  {
    hide GetInode, WordAt, IsSet, Owned, Clean, Without;
    WithoutTable(s, k);
  }

  /** Discarding an inode that maps nothing frees its block and removes just that file. */
  lemma DiscardKeeps(s: Fs, k: nat)
    requires Core(s) && k < |s.table| && s.table[k] != ROOT_LOCATION
    requires Ino(s, s.table[k]).indirect == 0
    requires forall p :: 0 <= p < FILEBLOCKS ==> Slot(s, s.table[k], p) == 0
    ensures Core(Discard(s, k))
    ensures ViewOf(Discard(s, k)) == ViewOf(s) - {s.table[k]}
  {
    hide GetInode, WordAt, IsSet, Ino, Slot, BlockOf, MapSlice, PutInode, PutSuper;
    var t := Discard(s, k);
    var i := s.table[k];
    DiscardMaps(s, k);
    UnmarkBits(s.freemap, i);
    assert BlockOwned(s, i);
    forall c | 0 <= c < |t.owner|
      ensures BlockOwned(t, c)
    {
      assert BlockOwned(s, c);
      CoreSuper(s);
    }
    forall j | Live(t, j)
      ensures MapsOwned(t, j)
    {
      assert MapsOwned(s, j);
    }
    CleanAfter(s, t);
    OneFileView(s, t, i);
  }
}
