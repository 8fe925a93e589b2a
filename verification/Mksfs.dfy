/** Formatting a disk (os161/sbin/mksfs/mksfs.c). */
module Mksfs {
  import opened Words
  import opened Bits
  import opened Bitmap
  import opened SfsLayout
  import opened SfsBlocks
  import opened SfsDir
  import opened SfsMount

  const MAXBITBLOCKS := 32

  /** Aborted: the assertion that no bit is allocated twice failed. */
  datatype Status = Done | NameTooLong | TooLarge | Aborted

  /** A new root directory: empty, with the one link of its own. */
  function RootInode(): Inode {
    EmptyInode(TYPE_DIR).(links := 1)
  }

  function NewSuper(volname: Name, nblocks: u32): Super
    requires |volname| < 32
  {
    SuperRec(SFS_MAGIC, nblocks, volname + Zeros(32 - |volname|), NoBlocks(118))
  }

  /** The blocks a new file system uses: superblock, root inode, map, and the numbers past the end of the disk. */
  function FreshOwner(n: nat): (r: seq<Owner>)
    ensures |r| == BitmapSize(n)
  {
    seq(BitmapSize(n), b => if b == SB_LOCATION then SuperBlock
                            else if b == ROOT_LOCATION then INode
                            else if b < MAP_LOCATION + BitBlocks(n) then MapBlock
                            else if b >= n then PastEnd else Free)
  }

  /** doallocbit: the same layout as the kernel's bitmap.  Fails if the bit is already set. */
  method DoAllocBit(bitbuf: array<byte>, bit: nat) returns (ok: bool)
    requires bit < 8 * bitbuf.Length
    modifies bitbuf
    ensures ok <==> !IsSet(old(bitbuf[..]), bit)
    ensures bitbuf[..] == if ok then Mark(old(bitbuf[..]), bit) else old(bitbuf[..])
  {
    var byte, k := bit / 8, bit % 8;
    if Bit(bitbuf[byte], k) {
      return false;
    }
    ByteSet(bitbuf[byte], k);
    bitbuf[byte] := Set(bitbuf[byte], k);
    ok := true;
  }

  /** Bits [lo, hi) allocated one by one: succeeds if none was set before, and then sets exactly those. */
  method AllocRange(bitbuf: array<byte>, lo: nat, hi: nat) returns (ok: bool)
    requires hi <= 8 * bitbuf.Length
    modifies bitbuf
    ensures ok <==> forall b :: lo <= b < hi ==> !IsSet(old(bitbuf[..]), b)
    ensures ok ==> forall b :: 0 <= b < 8 * bitbuf.Length ==>
      (IsSet(bitbuf[..], b) <==> IsSet(old(bitbuf[..]), b) || lo <= b < hi)
  {
    hide IsSet, Mark;
    var i := lo;
    while i < hi
      invariant lo <= i && (lo <= hi ==> i <= hi) && (lo > hi ==> i == lo)
      invariant forall b :: lo <= b < i ==> !IsSet(old(bitbuf[..]), b)
      invariant forall b :: 0 <= b < 8 * bitbuf.Length ==>
        (IsSet(bitbuf[..], b) <==> IsSet(old(bitbuf[..]), b) || lo <= b < i)
    {
      MarkBits(bitbuf[..], i);
      var fine := DoAllocBit(bitbuf, i);
      if !fine {
        return false;
      }
      i := i + 1;
    }
    ok := true;
  }

  /** writebitmap: the map of a new file system, then its blocks. */
  method WriteBitmap(disk0: seq<Block>, fsblocks: nat) returns (status: Status, disk: seq<Block>)
    requires 2 <= fsblocks == |disk0| < 0x1_0000_0000
    ensures |disk| == |disk0|
    ensures status == if BitBlocks(fsblocks) > MAXBITBLOCKS then TooLarge
                      else if MAP_LOCATION + BitBlocks(fsblocks) > fsblocks then Aborted else Done
    ensures forall b :: 0 <= b < |disk| && !(MAP_LOCATION <= b < MAP_LOCATION + BitBlocks(fsblocks)) ==>
      disk[b] == disk0[b]
    ensures status == Done ==> MapFits(disk, fsblocks) && forall b :: 0 <= b < BitmapSize(fsblocks) ==>
              (IsSet(MapBytes(disk, fsblocks), b) <==> b < MAP_LOCATION + BitBlocks(fsblocks) || b >= fsblocks)
  {
    hide Bit, Set, Mark;
    disk := disk0;
    var nbits, nblocks := BitmapSize(fsblocks), BitBlocks(fsblocks);
    if nblocks > MAXBITBLOCKS {
      return TooLarge, disk;
    }
    var bitbuf := new byte[MAXBITBLOCKS * BLOCKSIZE](_ => 0);
    forall b | 0 <= b < 8 * bitbuf.Length
      ensures !IsSet(bitbuf[..], b)
    {
      ZeroBits(b % 8);
    }
    var ok := AllocRange(bitbuf, SB_LOCATION, ROOT_LOCATION + 1);
    ok := AllocRange(bitbuf, MAP_LOCATION, MAP_LOCATION + nblocks);
    assert MAP_LOCATION + nblocks > fsblocks ==> fsblocks < nbits && IsSet(bitbuf[..], fsblocks);
    ok := AllocRange(bitbuf, fsblocks, nbits);
    if !ok {
      return Aborted, disk;
    }
    for i := 0 to nblocks
      invariant |disk| == |disk0|
      invariant forall b :: 0 <= b < |disk| && !(MAP_LOCATION <= b < MAP_LOCATION + i) ==> disk[b] == disk0[b]
      invariant forall b :: MAP_LOCATION <= b < MAP_LOCATION + i ==>
                  disk[b] == bitbuf[(b - MAP_LOCATION) * BLOCKSIZE..(b - MAP_LOCATION) * BLOCKSIZE + BLOCKSIZE]
    {
      disk := disk[MAP_LOCATION + i := bitbuf[i * BLOCKSIZE..i * BLOCKSIZE + BLOCKSIZE]];
    }
    MapIs(disk, fsblocks, bitbuf[..]);
    status := Done;
  }

  lemma MapIs(disk: seq<Block>, n: nat, buf: seq<byte>)
    requires MapFits(disk, n) && BitBlocks(n) * BLOCKSIZE <= |buf|
    requires forall b :: MAP_LOCATION <= b < MAP_LOCATION + BitBlocks(n) ==>
               disk[b] == buf[(b - MAP_LOCATION) * BLOCKSIZE..(b - MAP_LOCATION) * BLOCKSIZE + BLOCKSIZE]
    ensures forall b :: 0 <= b < BitmapSize(n) ==> (IsSet(MapBytes(disk, n), b) <==> IsSet(buf, b))
  {
    var m := MapBytes(disk, n);
    forall k | 0 <= k < |m|
      ensures m[k] == buf[k]
    {
      var j := k / BLOCKSIZE;
      assert disk[MAP_LOCATION + j] == buf[j * BLOCKSIZE..j * BLOCKSIZE + BLOCKSIZE];
    }
  }

  /** What a freshly formatted disk holds. */
  ghost predicate Fresh(disk: seq<Block>, volname: Name) {
    && |volname| < 32 && |disk| <= MAXBLOCKS && MAP_LOCATION + BitBlocks(|disk|) <= |disk|
    && disk[SB_LOCATION] == PutSuper(NewSuper(volname, |disk|))
    && disk[ROOT_LOCATION] == PutInode(RootInode())
    && forall b :: 0 <= b < BitmapSize(|disk|) ==>
         (IsSet(MapBytes(disk, |disk|), b) <==> b < MAP_LOCATION + BitBlocks(|disk|) || b >= |disk|)
  }

  /** mksfs, for a volume name without colon or slash.  It refuses disks of more than MAXBLOCKS blocks -- but
      for the largest of all, on which the size of the map wraps to 0 and mksfs exits normally without having
      written one. */
  method Format(disk0: seq<Block>, volname: Name) returns (status: Status, disk: seq<Block>)
    requires 2 <= |disk0| < 0x1_0000_0000
    ensures |disk| == |disk0|
    ensures status == if |volname| >= 32 then NameTooLong
                      else if BitBlocks(|disk0|) > MAXBITBLOCKS then TooLarge
                      else if MAP_LOCATION + BitBlocks(|disk0|) > |disk0| then Aborted else Done
    ensures status == Done ==> (Fresh(disk, volname) <==> |disk0| <= 0x1_0000_0000 - BLOCKBITS)
    ensures |disk0| > 0x1_0000_0000 - BLOCKBITS && |volname| < 32 ==>
              status == Done && forall b :: MAP_LOCATION <= b < |disk| ==> disk[b] == disk0[b]
  {
    hide PutSuper, PutInode, IsSet;
    disk := disk0;
    if |volname| >= 32 {
      return NameTooLong, disk;
    }
    disk := disk[SB_LOCATION := PutSuper(NewSuper(volname, |disk0|))];
    disk := disk[ROOT_LOCATION := PutInode(RootInode())];
    status, disk := WriteBitmap(disk, |disk0|);
  }

  function EmptyDir(): FileView {
    FileView(0, TYPE_DIR, 1, 0, Zeros(MAXFILE))
  }

  /** The bytes of a freshly formatted disk. */
  lemma FreshBytes(disk: seq<Block>, volname: Name, b: nat)
    requires Fresh(disk, volname) && b < |disk|
    ensures disk[0][0..4] == [0xab, 0xad, 0xf0, 0x01]
    ensures ((disk[0][4] as int * 256 + disk[0][5]) * 256 + disk[0][6]) * 256 + disk[0][7] == |disk|
    ensures disk[0][8..8 + |volname|] == volname && disk[0][8 + |volname|] == 0
    ensures disk[1][0..8] == [0, 0, 0, 0, 0, 2, 0, 1] && forall k :: 8 <= k < 72 ==> disk[1][k] == 0
    ensures 2 + b / 4096 < |disk|
    ensures disk[2 + b / 4096][b / 8 % 512] / Pow2(b % 8) % 2 == 1 <==> b < 2 + (|disk| + 4095) / 4096
  {
    hide IsSet, Bit, Pow2;
    var sp, root := NewSuper(volname, |disk|), RootInode();
    SuperLayout(sp);
    SuperBytes(disk[0]);
    assert disk[0][8..40][..|volname|] == volname && disk[0][8..40][|volname|] == 0;
    RootBytes();
    MapBit(disk, b);
  }

  lemma SuperBytes(b: Block)
    requires ((b[0] as int * 256 + b[1]) * 256 + b[2]) * 256 + b[3] == SFS_MAGIC
    ensures b[0..4] == [0xab, 0xad, 0xf0, 0x01]
  {
  }

  lemma RootBytes()
    ensures PutInode(RootInode())[0..8] == [0, 0, 0, 0, 0, 2, 0, 1]
    ensures forall k :: 8 <= k < 72 ==> PutInode(RootInode())[k] == 0
  {
    var ws := InodeWords(RootInode());
    assert forall k :: 2 <= k < 18 ==> ws[k] == 0;
  }

  lemma MapBit(disk: seq<Block>, b: nat)
    requires b < |disk| <= MAXBLOCKS && MAP_LOCATION + BitBlocks(|disk|) <= |disk|
    ensures BitBlocks(|disk|) == (|disk| + 4095) / 4096 && 2 + b / 4096 < |disk| && b < BitmapSize(|disk|)
    ensures IsSet(MapBytes(disk, |disk|), b) <==> disk[2 + b / 4096][b / 8 % 512] / Pow2(b % 8) % 2 == 1
  {
    hide Bit, Pow2;
    var m := MapBytes(disk, |disk|);
    assert b / 8 / BLOCKSIZE == b / 4096;
    assert m[b / 8] == disk[MAP_LOCATION + b / 8 / BLOCKSIZE][b / 8 % BLOCKSIZE];
    BitIs(m[b / 8], b % 8);
  }

  lemma FreshSuper(disk: seq<Block>, volname: Name)
    requires Fresh(disk, volname)
    ensures GetSuper(disk[SB_LOCATION]) == NewSuper(volname, |disk|)
    ensures Terminated(NewSuper(volname, |disk|)) == NewSuper(volname, |disk|)
    ensures GetInode(disk[ROOT_LOCATION]) == RootInode()
  {
    hide PutSuper, PutInode, GetSuper, GetInode, IsSet;
    SuperRoundTrip(NewSuper(volname, |disk|));
    InodeRoundTrip(RootInode());
    var w := volname + Zeros(32 - |volname|);
    assert w[31 := 0] == w;
  }

  /** A freshly formatted disk mounts as a consistent file system holding just an empty root directory. */
  lemma FreshMounts(disk: seq<Block>, volname: Name)
    requires Fresh(disk, volname)
    ensures MapFits(disk, GetSuper(disk[SB_LOCATION]).nblocks)
    ensures Core(Mounted(disk, FreshOwner(|disk|)))
    ensures ViewOf(Mounted(disk, FreshOwner(|disk|))) == map[ROOT_LOCATION := EmptyDir()]
    ensures DirOk(ViewOf(Mounted(disk, FreshOwner(|disk|))))
  {
    hide PutSuper, PutInode, GetSuper, GetInode, IsSet, NamesUnique, LinksTo;
    FreshSuper(disk, volname);
    var s := Mounted(disk, FreshOwner(|disk|));
    FreshOwned(disk, volname);
    FreshView(disk, volname);
    assert NEnt(EmptyDir()) == 0;
    EmptyDirOk();
  }

  lemma EmptyDirOk()
    ensures DirOk(map[ROOT_LOCATION := EmptyDir()])
  {
    var d := EmptyDir();
    assert NEnt(d) == 0;
    assert Inos(d) == [];
  }

  lemma FreshOwned(disk: seq<Block>, volname: Name)
    requires Fresh(disk, volname)
    ensures MapFits(disk, GetSuper(disk[SB_LOCATION]).nblocks)
    ensures Core(Mounted(disk, FreshOwner(|disk|)))
  {
    hide PutSuper, PutInode, GetSuper, GetInode, IsSet, WordAt;
    FreshSuper(disk, volname);
    var s := Mounted(disk, FreshOwner(|disk|));
    assert Shape(s);
    forall b | 0 <= b < |s.owner|
      ensures BlockOwned(s, b)
    {
    }
    forall i | Live(s, i)
      ensures MapsOwned(s, i)
    {
      assert i == ROOT_LOCATION;
    }
    forall j | 0 <= j < BitBlocks(s.super.nblocks)
      ensures s.disk[MAP_LOCATION + j] == MapSlice(s, j)
    {
      MapBlockRead(disk, s.super.nblocks, j);
    }
  }

  lemma FreshView(disk: seq<Block>, volname: Name)
    requires Fresh(disk, volname)
    ensures MapFits(disk, GetSuper(disk[SB_LOCATION]).nblocks)
    ensures ViewOf(Mounted(disk, FreshOwner(|disk|))) == map[ROOT_LOCATION := EmptyDir()]
  {
    hide PutSuper, PutInode, GetSuper, GetInode, IsSet, WordAt;
    FreshSuper(disk, volname);
    var s := Mounted(disk, FreshOwner(|disk|));
    forall k | 0 <= k < MAXFILE
      ensures Flat(s, ROOT_LOCATION)[k] == 0
    {
      assert Slot(s, ROOT_LOCATION, k / BLOCKSIZE) == 0;
    }
    assert Flat(s, ROOT_LOCATION) == Zeros(MAXFILE);
    assert forall i: nat :: Live(s, i) <==> i == ROOT_LOCATION;
  }
}
