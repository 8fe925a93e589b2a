/** On-disk structures of SFS (os161/kern/include/kern/sfs.h), the mounted file system as a
    value, its flat-file view and the invariants every operation keeps. */
module SfsLayout {
  import opened Words
  import opened Bitmap

  const NDIRECT := 15
  const DBPERIDB := 128
  /** Blocks one inode can map, and the bytes they hold. */
  const FILEBLOCKS := 143
  const MAXFILE := 73216
  const NAMELEN := 60
  const DIRSIZE := 64
  const SB_LOCATION := 0
  const ROOT_LOCATION := 1
  const MAP_LOCATION := 2
  const NOINO := 0
  const SFS_MAGIC: u32 := 0xabad_f001
  const TYPE_INVAL: u16 := 0
  const TYPE_FILE: u16 := 1
  const TYPE_DIR: u16 := 2
  const BLOCKBITS := 4096
  /** mksfs refuses larger disks: MAXBITBLOCKS (32) map blocks of BLOCKBITS bits. */
  const MAXBLOCKS := 131072

  /** SFS_BITBLOCKS and SFS_BITMAPSIZE: the size of the freemap, rounded up in 32-bit arithmetic. */
  function BitBlocks(nblocks: nat): nat {
    var n := nblocks + BLOCKBITS - 1;
    (if n < 0x1_0000_0000 then n else n % 0x1_0000_0000) / BLOCKBITS
  }

  function BitmapSize(nblocks: nat): nat {
    BitBlocks(nblocks) * BLOCKBITS
  }

  // ---------------------------------------------------------------- inode and superblock codecs

  datatype InodeRec = InodeRec(size: u32, typ: u16, links: u16, direct: seq<u32>, indirect: u32, waste: seq<u32>)
  type Inode = n: InodeRec | |n.direct| == NDIRECT && |n.waste| == 110
    witness InodeRec(0, 0, 0, NoBlocks(NDIRECT), 0, NoBlocks(110))

  function InodeWords(n: Inode): (ws: seq<u32>)
    ensures |ws| == WORDS_PER_BLOCK
  {
    [n.size, n.typ * 0x1_0000 + n.links] + n.direct + [n.indirect] + n.waste
  }

  function PutInode(n: Inode): Block {
    PutWords(InodeWords(n))
  }

  function GetInode(b: Block): Inode {
    InodeOfWords(GetWords(b))
  }

  function InodeOfWords(ws: seq<u32>): Inode
    requires |ws| == WORDS_PER_BLOCK
  {
    InodeRec(ws[0], ws[1] / 0x1_0000, ws[1] % 0x1_0000, ws[2..17], ws[17], ws[18..])
  }

  lemma InodeWordsRoundTrip(n: Inode)
    ensures InodeOfWords(InodeWords(n)) == n
  {
    var ws := InodeWords(n);
    assert ws[2..17] == n.direct;
    assert ws[18..] == n.waste;
  }

  /** Where the fields of an inode are in its block, most significant byte first. */
  lemma InodeLayout(n: Inode, k: nat)
    requires k < NDIRECT
    ensures var b := PutInode(n);
      && ((b[0] as int * 256 + b[1]) * 256 + b[2]) * 256 + b[3] == n.size
      && b[4] as int * 256 + b[5] == n.typ && b[6] as int * 256 + b[7] == n.links
      && ((b[8 + 4 * k] as int * 256 + b[9 + 4 * k]) * 256 + b[10 + 4 * k]) * 256 + b[11 + 4 * k] == n.direct[k]
      && ((b[68] as int * 256 + b[69]) * 256 + b[70]) * 256 + b[71] == n.indirect
  {
    hide PutWords;
    var ws, b := InodeWords(n), PutInode(n);
    BytesAt(ws, 0);
    BytesAt(ws, 1);
    TwoHalves(b[4], b[5], b[6], b[7], n.typ, n.links);
    BytesAt(ws, 2 + k);
    BytesAt(ws, 17);
    assert ws[2 + k] == n.direct[k] && ws[17] == n.indirect;
  }

  lemma TwoHalves(b0: byte, b1: byte, b2: byte, b3: byte, hi: u16, lo: u16)
    requires ((b0 as int * 256 + b1) * 256 + b2) * 256 + b3 == hi * 0x1_0000 + lo
    ensures b0 as int * 256 + b1 == hi && b2 as int * 256 + b3 == lo
  {
  }

  /** An inode written to its block and read back is the same inode. */
  lemma InodeRoundTrip(n: Inode)
    ensures GetInode(PutInode(n)) == n
  {
    WordsRoundTrip(InodeWords(n));
    InodeWordsRoundTrip(n);
  }

  /** A block read as an inode and written back is the same block. */
  lemma InodeBlockRoundTrip(b: Block)
    ensures PutInode(GetInode(b)) == b
  {
    var ws := GetWords(b);
    BytesRoundTrip(b);
    InodeWordsBack(ws);
  }

  lemma InodeWordsBack(ws: seq<u32>)
    requires |ws| == WORDS_PER_BLOCK
    ensures InodeWords(InodeOfWords(ws)) == ws
  {
    assert ws[1] / 0x1_0000 * 0x1_0000 + ws[1] % 0x1_0000 == ws[1];
    assert ws == [ws[0], ws[1]] + ws[2..17] + [ws[17]] + ws[18..];
  }

  function NoBlocks(n: nat): (r: seq<u32>)
    ensures |r| == n && forall k :: 0 <= k < n ==> r[k] == 0
  {
    seq(n, _ => 0)
  }

  /** The inode that maps nothing. */
  function EmptyInode(typ: u16): Inode {
    InodeRec(0, typ, 0, NoBlocks(NDIRECT), 0, NoBlocks(110))
  }

  /** A cleared block reads as an inode of no type with nothing mapped. */
  lemma ZeroInode()
    ensures GetInode(Zeros(BLOCKSIZE)) == EmptyInode(TYPE_INVAL)
  {
    ZeroWords(WORDS_PER_BLOCK);
    InodeOfZeros(GetWords(Zeros(BLOCKSIZE)));
  }

  lemma InodeOfZeros(ws: seq<u32>)
    requires |ws| == WORDS_PER_BLOCK && forall k :: 0 <= k < WORDS_PER_BLOCK ==> ws[k] == 0
    ensures InodeOfWords(ws) == EmptyInode(TYPE_INVAL)
  {
    assert ws[2..17] == EmptyInode(TYPE_INVAL).direct;
    assert ws[18..] == EmptyInode(TYPE_INVAL).waste;
  }

  datatype SuperRec = SuperRec(magic: u32, nblocks: u32, volname: seq<byte>, reserved: seq<u32>)
  type Super = p: SuperRec | |p.volname| == 32 && |p.reserved| == 118
    witness SuperRec(0, 0, seq(32, _ => 0), seq(118, _ => 0))

  function PutSuper(p: Super): Block {
    PutWords([p.magic, p.nblocks]) + p.volname + PutWords(p.reserved)
  }

  function GetSuper(b: Block): Super {
    SuperRec(WordAt(b, 0), WordAt(b, 1), b[8..40], GetWords(b[40..]))
  }

  lemma SuperRoundTrip(p: Super)
    ensures GetSuper(PutSuper(p)) == p
  {
    var hd := PutWords([p.magic, p.nblocks]);
    var tl := PutWords(p.reserved);
    WordsRoundTrip([p.magic, p.nblocks]);
    WordsRoundTrip(p.reserved);
    SuperParts(hd, p.volname, tl);
  }

  lemma SuperParts(hd: seq<byte>, vol: seq<byte>, tl: seq<byte>)
    requires |hd| == 8 && |vol| == 32 && |tl| == 472
    ensures WordAt(hd + vol + tl, 0) == GetWords(hd)[0] && WordAt(hd + vol + tl, 1) == GetWords(hd)[1]
    ensures (hd + vol + tl)[8..40] == vol && (hd + vol + tl)[40..] == tl
  {
    assert hd + vol + tl == hd + (vol + tl);
    WordAtPrefix(hd, vol + tl, 0);
    WordAtPrefix(hd, vol + tl, 1);
  }

  /** The superblock begins with the magic number, the number of blocks and the name of the volume. */
  lemma SuperLayout(p: Super)
    ensures var b := PutSuper(p);
      && ((b[0] as int * 256 + b[1]) * 256 + b[2]) * 256 + b[3] == p.magic
      && ((b[4] as int * 256 + b[5]) * 256 + b[6]) * 256 + b[7] == p.nblocks
      && b[8..40] == p.volname
  {
    var ws := [p.magic, p.nblocks];
    BytesAt(ws, 0);
    BytesAt(ws, 1);
  }

  // ---------------------------------------------------------------- the mounted file system

  /** Who a disk block belongs to.  One value per block: ownership is exclusive by construction. */
  datatype Owner = Free | SuperBlock | MapBlock | PastEnd | INode | Indirect(ino: nat) | Data(ino: nat, pos: nat)

  datatype Vnode = Vnode(inode: Inode, dirty: bool, refs: nat)

  /** The mounted file system.  `table` is the vnode array in order, `vnodes` the vnodes it points
      to, keyed by inode number; `owner` is the ownership map the proofs keep. */
  datatype Fs = Fs(
    super: Super,
    superDirty: bool,
    disk: seq<Block>,
    freemap: seq<byte>,
    mapDirty: bool,
    vnodes: map<nat, Vnode>,
    table: seq<nat>,
    owner: seq<Owner>)

  ghost predicate Shape(s: Fs) {
    && MAP_LOCATION + BitBlocks(s.super.nblocks) <= s.super.nblocks <= MAXBLOCKS
    && s.super.nblocks <= |s.disk|
    && |s.freemap| == BitBlocks(s.super.nblocks) * BLOCKSIZE
    && |s.owner| == BitmapSize(s.super.nblocks)
    && (forall i :: i in s.vnodes ==> i < s.super.nblocks && s.owner[i] == INode && s.vnodes[i].refs > 0)
    && (forall i :: i in s.vnodes ==> i in s.table)
    && (forall k :: 0 <= k < |s.table| ==> s.table[k] in s.vnodes)
    && (forall j, k :: 0 <= j < k < |s.table| ==> s.table[j] != s.table[k])
  }

  /** An inode is live while some block is owned as its inode block. */
  predicate Live(s: Fs, i: nat) {
    i < s.super.nblocks && i < |s.owner| && s.owner[i] == INode
  }

  /** The current inode: the cached copy if it is loaded, the disk copy otherwise. */
  function Ino(s: Fs, i: nat): Inode
    requires i < |s.disk|
  {
    if i in s.vnodes then s.vnodes[i].inode else GetInode(s.disk[i])
  }

  /** Entry `k` of the indirect block of an inode; an absent indirect block reads as zeros. */
  function IndirectEntry(s: Fs, n: Inode, k: nat): u32
    requires k < DBPERIDB
  {
    if n.indirect == 0 || n.indirect >= |s.disk| then 0 else WordAt(s.disk[n.indirect], k)
  }

  /** The disk block that holds block `p` of file `i`; 0 when it is not mapped. */
  function Slot(s: Fs, i: nat, p: nat): u32
    requires i < |s.disk| && p < FILEBLOCKS
  {
    if p < NDIRECT then Ino(s, i).direct[p] else IndirectEntry(s, Ino(s, i), p - NDIRECT)
  }

  function DiskBlock(s: Fs, b: nat): Block {
    if b == 0 || b >= |s.disk| then Zeros(BLOCKSIZE) else s.disk[b]
  }

  /** Contents of block `p` of file `i`; an unmapped block reads as zeros. */
  function BlockOf(s: Fs, i: nat, p: nat): Block
    requires i < |s.disk| && p < FILEBLOCKS
  {
    DiskBlock(s, Slot(s, i, p))
  }

  // ---------------------------------------------------------------- the flat view

  /** A file as its users see it: one flat string of MAXFILE bytes, of which `size` are in the file. */
  datatype FileView = FileView(size: nat, typ: u16, links: nat, refs: nat, bytes: seq<byte>)

  type View = map<nat, FileView>

  function Flat(s: Fs, i: nat): (r: seq<byte>)
    requires i < |s.disk|
    ensures |r| == MAXFILE
  {
    seq(MAXFILE, k requires 0 <= k < MAXFILE => BlockOf(s, i, k / BLOCKSIZE)[k % BLOCKSIZE])
  }

  function Refs(s: Fs, i: nat): nat {
    if i in s.vnodes then s.vnodes[i].refs else 0
  }

  function FileOf(s: Fs, i: nat): FileView
    requires i < |s.disk|
  {
    FileView(Ino(s, i).size, Ino(s, i).typ, Ino(s, i).links, Refs(s, i), Flat(s, i))
  }

  function ViewOf(s: Fs): View {
    map i: nat | 0 <= i < |s.owner| && Live(s, i) && i < |s.disk| :: FileOf(s, i)
  }

  // ---------------------------------------------------------------- invariants of the block layer

  /** Block `b` is owned as `s.owner[b]` says, and its freemap bit is set exactly when it is owned. */
  ghost predicate BlockOwned(s: Fs, b: nat)
    requires Shape(s) && b < |s.owner|
  {
    && (IsSet(s.freemap, b) <==> s.owner[b] != Free)
    && (s.owner[b].SuperBlock? <==> b == SB_LOCATION)
    && (s.owner[b].MapBlock? <==> MAP_LOCATION <= b < MAP_LOCATION + BitBlocks(s.super.nblocks))
    && (s.owner[b].PastEnd? <==> b >= s.super.nblocks)
    && (s.owner[b].Indirect? || s.owner[b].Data? ==> Live(s, s.owner[b].ino))
    && (s.owner[b].Indirect? ==> Ino(s, s.owner[b].ino).indirect == b)
    && (s.owner[b].Data? ==> s.owner[b].pos < FILEBLOCKS && Slot(s, s.owner[b].ino, s.owner[b].pos) == b)
  }

  /** Every block a live inode maps is owned by that inode at that place. */
  ghost predicate MapsOwned(s: Fs, i: nat)
    requires Shape(s) && i < |s.disk|
  {
    && (forall p :: 0 <= p < FILEBLOCKS && Slot(s, i, p) != 0 ==>
          Slot(s, i, p) < s.super.nblocks && s.owner[Slot(s, i, p)] == Data(i, p))
    && (Ino(s, i).indirect != 0 ==>
          Ino(s, i).indirect < s.super.nblocks && s.owner[Ino(s, i).indirect] == Indirect(i))
  }

  ghost predicate Owned(s: Fs)
    requires Shape(s)
  {
    && s.owner[ROOT_LOCATION] == INode
    && (forall b :: 0 <= b < |s.owner| ==> BlockOwned(s, b))
    && (forall i :: Live(s, i) ==> MapsOwned(s, i))
  }

  function MapSlice(s: Fs, j: nat): Block
    requires j * BLOCKSIZE + BLOCKSIZE <= |s.freemap|
  {
    s.freemap[j * BLOCKSIZE..j * BLOCKSIZE + BLOCKSIZE]
  }

  /** A clear dirty flag means the memory copy is the disk copy. */
  ghost predicate Clean(s: Fs)
    requires Shape(s)
  {
    && (forall i :: i in s.vnodes && !s.vnodes[i].dirty ==> s.disk[i] == PutInode(s.vnodes[i].inode))
    && (!s.mapDirty ==>
          forall j :: 0 <= j < BitBlocks(s.super.nblocks) ==> s.disk[MAP_LOCATION + j] == MapSlice(s, j))
    && (!s.superDirty ==> s.disk[SB_LOCATION] == PutSuper(s.super))
    && s.super.magic == SFS_MAGIC
    && s.super.volname[31] == 0
  }

  ghost predicate Core(s: Fs) {
    Shape(s) && Owned(s) && Clean(s)
  }
}
