/** Sync, mount and unmount (os161/kern/fs/sfs/sfs_fs.c) and formatting (os161/sbin/mksfs/mksfs.c). */
module SfsMount {
  import opened Words
  import opened Bits
  import opened Bitmap
  import opened Errno
  import opened SfsLayout
  import opened SfsBlocks
  import opened SfsInodes
  import opened SfsDir
  import opened Sfs

  // ---------------------------------------------------------------- sfs_sync

  /** Nothing in memory is newer than the disk. */
  ghost predicate AllClean(s: Fs) {
    !s.mapDirty && !s.superDirty && forall i :: i in s.vnodes ==> !s.vnodes[i].dirty
  }

  /** While the map is dirty, what its disk blocks hold does not matter. */
  lemma MapBlockKeeps(s: Fs, b: nat, blk: Block)
    requires Core(s) && s.mapDirty && MAP_LOCATION <= b < MAP_LOCATION + BitBlocks(s.super.nblocks)
    ensures Core(SetBlock(s, b, blk)) && ViewOf(SetBlock(s, b, blk)) == ViewOf(s)
  {
    hide GetInode, PutInode, WordAt, IsSet, Owned;
    var t := SetBlock(s, b, blk);
    MapBlockApart(s, b);
    forall j | Live(s, j)
      ensures Ino(t, j) == Ino(s, j)
      ensures forall q :: 0 <= q < FILEBLOCKS ==> Slot(t, j, q) == Slot(s, j, q) && BlockOf(t, j, q) == BlockOf(s, j, q)
    {
    }
    SameMapsOwned(s, t);
    forall i | i in t.vnodes
      ensures t.disk[i] == s.disk[i]
    {
      assert Live(s, i);
    }
    CleanAfter(s, t);
    SameView(s, t);
  }

  lemma MapBlockApart(s: Fs, b: nat)
    requires Core(s) && MAP_LOCATION <= b < MAP_LOCATION + BitBlocks(s.super.nblocks)
    ensures b < s.super.nblocks && b != SB_LOCATION
    ensures forall j :: Live(s, j) ==> j != b && Ino(s, j).indirect != b
    ensures forall j, q :: Live(s, j) && 0 <= q < FILEBLOCKS ==> Slot(s, j, q) != b
  {
    hide Ino, Slot, IsSet, Clean;
    assert BlockOwned(s, b);
    forall j | Live(s, j)
      ensures Ino(s, j).indirect != b && forall q :: 0 <= q < FILEBLOCKS ==> Slot(s, j, q) != b
    {
      assert MapsOwned(s, j);
    }
  }

  lemma MapClean(s: Fs)
    requires Core(s) && forall j :: 0 <= j < BitBlocks(s.super.nblocks) ==> s.disk[MAP_LOCATION + j] == MapSlice(s, j)
    ensures Core(s.(mapDirty := false)) && ViewOf(s.(mapDirty := false)) == ViewOf(s)
  {
    hide GetInode, PutInode, WordAt, IsSet, Owned;
    var t := s.(mapDirty := false);
    forall j | Live(s, j)
      ensures Ino(t, j) == Ino(s, j)
      ensures forall q :: 0 <= q < FILEBLOCKS ==> Slot(t, j, q) == Slot(s, j, q) && BlockOf(t, j, q) == BlockOf(s, j, q)
    {
    }
    SameMapsOwned(s, t);
    forall j | 0 <= j < BitBlocks(t.super.nblocks)
      ensures t.disk[MAP_LOCATION + j] == MapSlice(t, j)
    {
      assert s.disk[MAP_LOCATION + j] == MapSlice(s, j);
    }
    SameView(s, t);
  }

  /** sfs_mapio, writing. */
  method WriteMap(fs: SfsFs)
    requires fs.Valid() && fs.mapDirty
    modifies fs`disk
    ensures fs.Valid() && ViewOf(fs.S()) == old(ViewOf(fs.S())) && |fs.disk| == old(|fs.disk|)
    ensures forall j :: 0 <= j < BitBlocks(fs.super.nblocks) ==> fs.disk[MAP_LOCATION + j] == MapSlice(fs.S(), j)
  {
    hide Owned, ViewOf, Clean;
    var mapsize := BitBlocks(fs.super.nblocks);
    for j := 0 to mapsize
      invariant fs.Valid() && ViewOf(fs.S()) == old(ViewOf(fs.S())) && |fs.disk| == old(|fs.disk|)
      invariant forall k :: 0 <= k < j ==>
        fs.disk[MAP_LOCATION + k] == fs.freemap.v[k * BLOCKSIZE..k * BLOCKSIZE + BLOCKSIZE]
    {
      var blk: Block := fs.freemap.v[j * BLOCKSIZE..j * BLOCKSIZE + BLOCKSIZE];
      MapBlockKeeps(fs.S(), MAP_LOCATION + j, blk);
      fs.disk := fs.disk[MAP_LOCATION + j := blk];
    }
    forall j | 0 <= j < BitBlocks(fs.super.nblocks)
      ensures fs.disk[MAP_LOCATION + j] == MapSlice(fs.S(), j)
    {
      assert fs.disk[MAP_LOCATION + j] == fs.freemap.v[j * BLOCKSIZE..j * BLOCKSIZE + BLOCKSIZE];
    }
  }

  /** The loop of sfs_sync over the vnode table. */
  method SyncVnodes(fs: SfsFs)
    requires fs.Valid()
    modifies fs
    ensures fs.Valid() && ViewOf(fs.S()) == old(ViewOf(fs.S()))
    ensures fs.super == old(fs.super) && fs.table == old(fs.table) && fs.vnodes.Keys == old(fs.vnodes.Keys)
      && fs.owner == old(fs.owner)
    ensures forall i :: i in fs.vnodes ==> !fs.vnodes[i].dirty
  {
    hide Core, ViewOf, PutInode;
    CoreTables(fs.S());
    var num := |fs.table|;
    for k := 0 to num
      invariant fs.Valid() && ViewOf(fs.S()) == old(ViewOf(fs.S()))
      invariant fs.super == old(fs.super) && fs.table == old(fs.table) && fs.vnodes.Keys == old(fs.vnodes.Keys)
        && fs.owner == old(fs.owner)
      invariant forall j :: 0 <= j < k ==> fs.table[j] in fs.vnodes && !fs.vnodes[fs.table[j]].dirty
    {
      CoreTables(fs.S());
      fs.SyncVnode(fs.table[k]);
    }
    CoreTables(fs.S());
  }

  /** sfs_sync: afterwards nothing in memory is newer than the disk, and no file has changed. */
  method Sync(fs: SfsFs)
    requires fs.Inv()
    modifies fs
    ensures fs.Inv() && ViewOf(fs.S()) == old(ViewOf(fs.S()))
    ensures AllClean(fs.S())
    ensures fs.super == old(fs.super) && fs.table == old(fs.table) && fs.vnodes.Keys == old(fs.vnodes.Keys)
      && fs.owner == old(fs.owner)
  {
    hide Core, ViewOf, PutInode, PutSuper, DirOk;
    SyncVnodes(fs);
    if fs.mapDirty {
      WriteMap(fs);
      MapClean(fs.S());
      fs.mapDirty := false;
    }
    if fs.superDirty {
      SuperBlockKeeps(fs.S());
      fs.disk := fs.disk[SB_LOCATION := PutSuper(fs.super)];
      fs.superDirty := false;
    }
  }

  lemma CoreTables(s: Fs)
    requires Core(s)
    ensures forall k :: 0 <= k < |s.table| ==> s.table[k] in s.vnodes
    ensures forall i :: i in s.vnodes ==> exists k :: 0 <= k < |s.table| && s.table[k] == i
  {
    hide Owned, Clean;
    forall i | i in s.vnodes
      ensures exists k :: 0 <= k < |s.table| && s.table[k] == i
    {
      assert i in s.table;
    }
  }

  /** Writing the superblock back touches nothing else. */
  lemma SuperBlockKeeps(s: Fs)
    requires Core(s)
    ensures SB_LOCATION < |s.disk|
    ensures var t := SetBlock(s, SB_LOCATION, PutSuper(s.super)).(superDirty := false);
            Core(t) && ViewOf(t) == ViewOf(s)
  {
    hide GetInode, PutInode, PutSuper, WordAt, IsSet, Owned;
    var t := SetBlock(s, SB_LOCATION, PutSuper(s.super)).(superDirty := false);
    CoreSuper(s);
    SuperApart(s);
    forall j | Live(s, j)
      ensures Ino(t, j) == Ino(s, j)
      ensures forall q :: 0 <= q < FILEBLOCKS ==> Slot(t, j, q) == Slot(s, j, q) && BlockOf(t, j, q) == BlockOf(s, j, q)
    {
    }
    SameMapsOwned(s, t);
    forall i | i in t.vnodes
      ensures t.disk[i] == s.disk[i]
    {
      assert Live(s, i);
    }
    forall j | !t.mapDirty && 0 <= j < BitBlocks(t.super.nblocks)
      ensures t.disk[MAP_LOCATION + j] == MapSlice(t, j)
    {
      assert s.disk[MAP_LOCATION + j] == MapSlice(s, j);
    }
    SameView(s, t);
  }

  lemma SuperApart(s: Fs)
    requires Core(s)
    ensures forall j :: Live(s, j) ==> j != SB_LOCATION
  {
    hide Ino, Slot, IsSet, Clean;
    assert BlockOwned(s, SB_LOCATION);
  }

  // ---------------------------------------------------------------- sfs_domount

  /** Every map block the superblock speaks of is on the device. */
  predicate MapFits(disk: seq<Block>, nblocks: nat) {
    BitBlocks(nblocks) == 0 || MAP_LOCATION + BitBlocks(nblocks) <= |disk|
  }

  /** The freemap as the map blocks on disk give it. */
  function MapBytes(disk: seq<Block>, nblocks: nat): (r: seq<byte>)
    requires MapFits(disk, nblocks)
    ensures |r| == BitBlocks(nblocks) * BLOCKSIZE
  {
    seq(BitBlocks(nblocks) * BLOCKSIZE, k requires 0 <= k < BitBlocks(nblocks) * BLOCKSIZE =>
      disk[MAP_LOCATION + k / BLOCKSIZE][k % BLOCKSIZE])
  }

  lemma MapBlockRead(disk: seq<Block>, nblocks: nat, j: nat)
    requires MapFits(disk, nblocks) && j < BitBlocks(nblocks)
    ensures MapBytes(disk, nblocks)[j * BLOCKSIZE..j * BLOCKSIZE + BLOCKSIZE] == disk[MAP_LOCATION + j]
  {
    var m := MapBytes(disk, nblocks)[j * BLOCKSIZE..j * BLOCKSIZE + BLOCKSIZE];
    forall k | 0 <= k < BLOCKSIZE
      ensures m[k] == disk[MAP_LOCATION + j][k]
    {
      assert (j * BLOCKSIZE + k) / BLOCKSIZE == j && (j * BLOCKSIZE + k) % BLOCKSIZE == k;
    }
  }

  /** The superblock with the volume name terminated. */
  function Terminated(sp: Super): Super {
    sp.(volname := sp.volname[31 := 0])
  }

  /** The file system a mount of `disk` sets up, given who owns the blocks. */
  ghost function Mounted(disk: seq<Block>, owner: seq<Owner>): Fs
    requires |disk| > 0 && MapFits(disk, GetSuper(disk[SB_LOCATION]).nblocks)
  {
    Fs(Terminated(GetSuper(disk[SB_LOCATION])), false, disk, MapBytes(disk, GetSuper(disk[SB_LOCATION]).nblocks),
      false, map[], [], owner)
  }

  /** sfs_domount.  The device reports EINVAL past its end, on which the file system panics: so it does for a
      device without a superblock or without all of the map. */
  method Mount(disk: seq<Block>, blocksize: nat, ghost owner: seq<Owner>)
    returns (panicked: bool, err: Errno, fs: SfsFs?)
    ensures panicked <==> && blocksize == BLOCKSIZE
                          && (|disk| == 0 || (GetSuper(disk[SB_LOCATION]).magic == SFS_MAGIC &&
                                              !MapFits(disk, GetSuper(disk[SB_LOCATION]).nblocks)))
    ensures !panicked ==> err == if blocksize != BLOCKSIZE then ENXIO
                                 else if GetSuper(disk[SB_LOCATION]).magic != SFS_MAGIC then EINVAL else EOK
    ensures !panicked && err == EOK <==> fs != null
    ensures fs != null ==>
              && fresh(fs) && fresh(fs.freemap.v) && fs.freemap.Valid()
              && fs.freemap.nbits == BitmapSize(fs.super.nblocks) && fs.S() == Mounted(disk, owner)
  {
    hide GetSuper, Bit, BitBlocks;
    panicked, fs := false, null;
    if blocksize != BLOCKSIZE {
      return false, ENXIO, null;
    }
    if |disk| <= SB_LOCATION {
      return true, EINVAL, null;
    }
    var sp := GetSuper(disk[SB_LOCATION]);
    if sp.magic != SFS_MAGIC {
      return false, EINVAL, null;
    }
    sp := Terminated(sp);
    var freemap := new BitmapObj(BitmapSize(sp.nblocks));
    var mapsize := BitBlocks(sp.nblocks);
    for j := 0 to mapsize
      invariant fresh(freemap.v) && freemap.v.Length == mapsize * BLOCKSIZE
      invariant j > 0 ==> MAP_LOCATION + j <= |disk|
      invariant forall k :: 0 <= k < j * BLOCKSIZE ==> freemap.v[k] == disk[MAP_LOCATION + k / BLOCKSIZE][k % BLOCKSIZE]
    {
      if MAP_LOCATION + j >= |disk| {
        return true, EINVAL, null;
      }
      var blk := disk[MAP_LOCATION + j];
      forall k | 0 <= k < BLOCKSIZE {
        freemap.v[j * BLOCKSIZE + k] := blk[k];
      }
    }
    assert freemap.v[..] == MapBytes(disk, sp.nblocks);
    fs := new SfsFs(disk, sp, freemap, owner);
    err := EOK;
  }

  /** sfs_unmount: refused while any vnode is in memory. */
  method Unmount(fs: SfsFs) returns (err: Errno)
    requires fs.Inv() && AllClean(fs.S())
    ensures err == if |fs.table| > 0 then EBUSY else EOK
    ensures err == EOK ==> fs.vnodes == map[]
  {
    if |fs.table| > 0 {
      return EBUSY;
    }
    assert !fs.superDirty && !fs.mapDirty;
    CoreTables(fs.S());
    err := EOK;
  }

  /** Nobody holds anything after a mount. */
  ghost function Unheld(v: View): View {
    map i | i in v :: v[i].(refs := 0)
  }

  lemma MapRead(s: Fs)
    requires Core(s) && !s.mapDirty
    ensures MapBytes(s.disk, s.super.nblocks) == s.freemap
  {
    hide Owned, PutInode, PutSuper;
    var m := MapBytes(s.disk, s.super.nblocks);
    forall k | 0 <= k < |m|
      ensures m[k] == s.freemap[k]
    {
      var j := k / BLOCKSIZE;
      assert s.disk[MAP_LOCATION + j] == MapSlice(s, j);
    }
  }

  lemma CleanMounted(s: Fs)
    requires Core(s) && AllClean(s)
    ensures |s.disk| > 0 && MapFits(s.disk, GetSuper(s.disk[SB_LOCATION]).nblocks)
    ensures Mounted(s.disk, s.owner) == s.(vnodes := map[], table := [])
  {
    hide Owned, GetSuper, PutSuper, PutInode;
    SuperRoundTrip(s.super);
    MapRead(s);
    assert s.super.volname[31 := 0] == s.super.volname;
  }

  /** Sync, then mount: every file has the contents, size, type and link count it had, the freemap is the same, and
      nobody holds anything. */
  lemma RemountKeeps(s: Fs)
    requires Core(s) && AllClean(s)
    ensures |s.disk| > 0 && MapFits(s.disk, GetSuper(s.disk[SB_LOCATION]).nblocks)
    ensures Core(Mounted(s.disk, s.owner)) && Mounted(s.disk, s.owner).freemap == s.freemap
    ensures ViewOf(Mounted(s.disk, s.owner)) == Unheld(ViewOf(s))
  {
    hide Owned, GetSuper, PutSuper, GetInode, PutInode, WordAt, Flat;
    CleanMounted(s);
    var t := Mounted(s.disk, s.owner);
    forall j | Live(s, j)
      ensures Ino(t, j) == Ino(s, j)
      ensures forall q :: 0 <= q < FILEBLOCKS ==> Slot(t, j, q) == Slot(s, j, q) && BlockOf(t, j, q) == BlockOf(s, j, q)
    {
      if j in s.vnodes {
        InodeRoundTrip(s.vnodes[j].inode);
      }
    }
    SameMapsOwned(s, t);
    CleanKept(s, t);
    forall j | Live(s, j)
      ensures FileOf(t, j) == FileOf(s, j).(refs := 0)
    {
      SameFlat(s, t, j, j);
    }
    assert ViewOf(t) == Unheld(ViewOf(s));
  }

  /** The mounted file system is consistent exactly if no unlinked file was still held: such a file would be lost. */
  lemma RemountOk(v: View)
    requires DirOk(v)
    ensures DirOk(Unheld(v)) <==> forall i :: i in v ==> v[i].links > 0
    ensures IsDir(Unheld(v)[ROOT_LOCATION]) && NEnt(Unheld(v)[ROOT_LOCATION]) <= MAXENTRIES
      && NamesUnique(Unheld(v)[ROOT_LOCATION])
    ensures DirMap(Unheld(v)[ROOT_LOCATION]) == DirMap(v[ROOT_LOCATION])
  {
    hide DirMap, NamesUnique, LinksTo, Entry, NameAt;
    SameEntries(v[ROOT_LOCATION], Unheld(v)[ROOT_LOCATION]);
    assert ROOT_LOCATION in Unheld(v);
    if forall i :: i in v ==> v[i].links > 0 {
      assert DirOk(Unheld(v));
    } else {
      var i :| i in v && v[i].links <= 0;
      assert Unheld(v)[i].refs == 0 && Unheld(v)[i].links == 0;
    }
  }

  /** After a successful unmount, mounting again gives back the very same file system. */
  lemma UnmountRemount(s: Fs)
    requires Core(s) && AllClean(s) && s.table == []
    ensures |s.disk| > 0 && MapFits(s.disk, GetSuper(s.disk[SB_LOCATION]).nblocks)
    ensures Mounted(s.disk, s.owner) == s
  {
    hide Owned, GetSuper, PutSuper, GetInode, PutInode;
    CleanMounted(s);
    assert forall i :: i !in s.vnodes;
    assert s.vnodes == map[];
  }
}
