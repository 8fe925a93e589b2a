/** Cutting a file at a block (sfs_truncate), step by step. */
module SfsTruncate {
  import opened Words
  import opened SfsLayout
  import opened SfsBlocks

  /** The blocks sfs_truncate keeps when the new length takes `blocklen` blocks.  The direct blocks are
      tested with >= but the entries of the indirect block with a strict <, so from the indirect range on
      one more block is kept. */
  function KeptBlocks(blocklen: nat): nat {
    if blocklen < NDIRECT then blocklen else if blocklen < FILEBLOCKS - 1 then blocklen + 1 else FILEBLOCKS
  }

  /** `bytes` with the blocks from `lo` up to but not including `hi` zeroed. */
  ghost function ZeroBlocks(bytes: seq<byte>, lo: nat, hi: nat): (r: seq<byte>)
    requires |bytes| == MAXFILE
    ensures |r| == MAXFILE
  {
    seq(MAXFILE, k requires 0 <= k < MAXFILE => if lo <= k / BLOCKSIZE < hi then 0 else bytes[k])
  }

  lemma ZeroBlocksNone(bytes: seq<byte>, lo: nat, hi: nat)
    requires |bytes| == MAXFILE && hi <= lo
    ensures ZeroBlocks(bytes, lo, hi) == bytes
  {
  }

  lemma ZeroBlocksStep(bytes: seq<byte>, lo: nat, p: nat)
    requires |bytes| == MAXFILE && lo <= p < FILEBLOCKS
    ensures Splice(ZeroBlocks(bytes, lo, p), p * BLOCKSIZE, Zeros(BLOCKSIZE)) == ZeroBlocks(bytes, lo, p + 1)
  {
    var a, b := Splice(ZeroBlocks(bytes, lo, p), p * BLOCKSIZE, Zeros(BLOCKSIZE)), ZeroBlocks(bytes, lo, p + 1);
    forall k | 0 <= k < MAXFILE
      ensures a[k] == b[k]
    {
      assert lo <= k / BLOCKSIZE < p + 1 <==> lo <= k / BLOCKSIZE < p || p * BLOCKSIZE <= k < p * BLOCKSIZE + BLOCKSIZE;
    }
  }

  /** Of file `i`, exactly the blocks from `lo` below `hi` are gone: zeroed, unmapped and free. */
  ghost predicate Cut(s: Fs, s0: Fs, i: nat, lo: nat, hi: nat) {
    && Core(s0) && Core(s) && i in s.vnodes && i in s0.vnodes
    && s.super == s0.super && |s.disk| == |s0.disk| && s.table == s0.table && s.vnodes.Keys == s0.vnodes.Keys
    && i in ViewOf(s0) && |ViewOf(s0)[i].bytes| == MAXFILE
    && ViewOf(s) == ViewOf(s0)[i := ViewOf(s0)[i].(bytes := ZeroBlocks(ViewOf(s0)[i].bytes, lo, hi))]
    && (forall q :: 0 <= q < FILEBLOCKS ==> Slot(s, i, q) == if lo <= q < hi then 0 else Slot(s0, i, q))
    && |s.owner| == |s0.owner|
    && (forall b :: 0 <= b < |s0.owner| ==>
          s.owner[b] ==
            if s0.owner[b].Data? && s0.owner[b].ino == i && lo <= s0.owner[b].pos < hi then Free else s0.owner[b])
    && Ino(s, i).indirect == Ino(s0, i).indirect && Ino(s, i).links == Ino(s0, i).links
    && Ino(s, i).typ == Ino(s0, i).typ && Refs(s, i) == Refs(s0, i)
  }

  lemma CutStart(s: Fs, i: nat, lo: nat)
    requires Core(s) && i in s.vnodes
    ensures Cut(s, s, i, lo, 0)
  {
    hide Owned, Clean, Slot, Flat;
    ZeroBlocksNone(ViewOf(s)[i].bytes, lo, 0);
    assert FileOf(s, i).(bytes := Flat(s, i)) == FileOf(s, i);
  }

  /** A block below `lo`, or one that is not mapped, needs no work. */
  lemma CutSkip(s: Fs, s0: Fs, i: nat, lo: nat, p: nat)
    requires Cut(s, s0, i, lo, p) && p < FILEBLOCKS && (p < lo || Slot(s, i, p) == 0)
    ensures Cut(s, s0, i, lo, p + 1)
  {
    hide Owned, Clean, Slot, Flat, ZeroBlocks, Core, Splice;
    var f0 := ViewOf(s0)[i].bytes;
    if p < lo {
      ZeroBlocksNone(f0, lo, p);
      ZeroBlocksNone(f0, lo, p + 1);
    } else {
      CutSkipBytes(s, s0, i, lo, p);
    }
    CutSkipOwner(s, s0, i, lo, p);
  }

  lemma CutSkipBytes(s: Fs, s0: Fs, i: nat, lo: nat, p: nat)
    requires Cut(s, s0, i, lo, p) && lo <= p < FILEBLOCKS && Slot(s, i, p) == 0
    ensures ZeroBlocks(ViewOf(s0)[i].bytes, lo, p + 1) == ZeroBlocks(ViewOf(s0)[i].bytes, lo, p)
  {
    hide Owned, Clean, Slot;
    var f0 := ViewOf(s0)[i].bytes;
    assert ViewOf(s)[i].bytes == ZeroBlocks(f0, lo, p) == Flat(s, i);
    forall k | 0 <= k < MAXFILE
      ensures ZeroBlocks(f0, lo, p + 1)[k] == ZeroBlocks(f0, lo, p)[k]
    {
      if k / BLOCKSIZE == p {
        assert Flat(s, i)[k] == BlockOf(s, i, p)[k % BLOCKSIZE] == 0;
      }
    }
  }

  lemma CutSkipOwner(s: Fs, s0: Fs, i: nat, lo: nat, p: nat)
    requires Cut(s, s0, i, lo, p) && p < FILEBLOCKS && (p < lo || Slot(s, i, p) == 0)
    ensures forall b :: 0 <= b < |s0.owner| && s0.owner[b] == Data(i, p) ==> p < lo
  {
    hide Clean, ViewOf, Slot, Ino, Bitmap.IsSet;
    forall b | 0 <= b < |s0.owner| && s0.owner[b] == Data(i, p)
      ensures p < lo
    {
      assert BlockOwned(s0, b) && BlockOwned(s0, SB_LOCATION);
    }
  }

  /** Freeing block `p` takes a cut one block further. */
  lemma CutFree(s: Fs, t: Fs, s0: Fs, i: nat, lo: nat, p: nat)
    requires Cut(s, s0, i, lo, p) && lo <= p < FILEBLOCKS && Slot(s, i, p) != 0
    requires Core(t) && i in t.vnodes && t.super == s.super && |t.disk| == |s.disk| && t.table == s.table
      && t.vnodes.Keys == s.vnodes.Keys
    requires Slot(s, i, p) < |s.owner| && s.owner[Slot(s, i, p)] == Data(i, p)
      && t.owner == s.owner[Slot(s, i, p) := Free]
    requires MapDelta(s, t, Slot(s, i, p), Free, i)
    requires i in ViewOf(s) && |ViewOf(s)[i].bytes| == MAXFILE
      && ViewOf(t) == BlockView(ViewOf(s), i, p, Zeros(BLOCKSIZE))
    requires Ino(t, i).links == Ino(s, i).links && Ino(t, i).typ == Ino(s, i).typ && Refs(t, i) == Refs(s, i)
    ensures Cut(t, s0, i, lo, p + 1)
  {
    hide Owned, Clean, Flat, ZeroBlocks, Core, Splice, Slot, Ino, ViewOf;
    ZeroBlocksStep(ViewOf(s0)[i].bytes, lo, p);
    assert ViewOf(t) == ViewOf(s0)[i := ViewOf(s0)[i].(bytes := ZeroBlocks(ViewOf(s0)[i].bytes, lo, p + 1))];
    CutFreeOwner(s, t, s0, i, lo, p);
  }

  lemma CutFreeOwner(s: Fs, t: Fs, s0: Fs, i: nat, lo: nat, p: nat)
    requires Cut(s, s0, i, lo, p) && lo <= p < FILEBLOCKS && Slot(s, i, p) != 0
    requires Slot(s, i, p) < |s.owner| && s.owner[Slot(s, i, p)] == Data(i, p)
      && t.owner == s.owner[Slot(s, i, p) := Free]
    ensures forall b :: 0 <= b < |s0.owner| ==>
              t.owner[b] ==
                if s0.owner[b].Data? && s0.owner[b].ino == i && lo <= s0.owner[b].pos < p + 1 then Free else s0.owner[b]
  {
    hide Clean, ViewOf, Slot, Ino, Bitmap.IsSet;
    forall b | 0 <= b < |s0.owner|
      ensures t.owner[b] ==
        if s0.owner[b].Data? && s0.owner[b].ino == i && lo <= s0.owner[b].pos < p + 1 then Free else s0.owner[b]
    {
      assert BlockOwned(s0, b);
    }
  }

  lemma CutDirect(s: Fs, s0: Fs, i: nat, lo: nat, p: nat)
    requires Cut(s, s0, i, lo, p) && lo <= p < NDIRECT && Slot(s, i, p) != 0
    ensures Slot(s, i, p) < s.super.nblocks && Cut(FreeDirect(s, i, p), s0, i, lo, p + 1)
  {
    hide Owned, Clean, Flat, ZeroBlocks, BlockView, ViewOf, MapDelta;
    FreeDirectKeeps(s, i, p);
    assert i in ViewOf(s) by {
      ViewHas(s, i);
    }
    ViewHas(s, i);
    CutFree(s, FreeDirect(s, i, p), s0, i, lo, p);
  }

  lemma CutEntry(s: Fs, s0: Fs, i: nat, lo: nat, p: nat)
    requires Cut(s, s0, i, lo, p) && lo <= p && NDIRECT <= p < FILEBLOCKS && Slot(s, i, p) != 0
    ensures Slot(s, i, p) < s.super.nblocks && Ino(s, i).indirect < |s.disk|
      && Cut(FreeEntry(s, i, p), s0, i, lo, p + 1)
  {
    hide Owned, Clean, Flat, ZeroBlocks, BlockView, ViewOf, MapDelta, WordAt, PutEntry;
    FreeEntryKeeps(s, i, p);
    ViewHas(s, i);
    CutFree(s, FreeEntry(s, i, p), s0, i, lo, p);
  }

  lemma ViewHas(s: Fs, i: nat)
    requires Shape(s) && i in s.vnodes
    ensures i in ViewOf(s) && |ViewOf(s)[i].bytes| == MAXFILE
  {
  }

  lemma {:induction false} CutSkipRest(s: Fs, s0: Fs, i: nat, lo: nat, p: nat)
    requires Cut(s, s0, i, lo, p) && p <= FILEBLOCKS
    requires forall q :: p <= q < FILEBLOCKS && lo <= q ==> Slot(s, i, q) == 0
    ensures Cut(s, s0, i, lo, FILEBLOCKS)
    decreases FILEBLOCKS - p
  {
    hide Cut, Slot;
    if p >= FILEBLOCKS {
    } else {
      CutSlotOk(s, s0, i, lo, p);
      CutSkip(s, s0, i, lo, p);
      CutSkipRest(s, s0, i, lo, p + 1);
    }
  }

  lemma CutSlotOk(s: Fs, s0: Fs, i: nat, lo: nat, p: nat)
    requires Cut(s, s0, i, lo, p)
    ensures i < |s.disk| && i < |s0.disk|
  {
    hide Owned, Clean, ViewOf, Slot;
  }

  /** The indirect block of file `i` is dropped when a cut at `lo` leaves it without entries. */
  ghost predicate DropsIndirect(s0: Fs, i: nat, lo: nat)
    requires i < |s0.disk|
  {
    Ino(s0, i).indirect != 0 && lo < FILEBLOCKS
    && forall q :: NDIRECT <= q < FILEBLOCKS && q < lo ==> Slot(s0, i, q) == 0
  }

  /** After a cut of file `i` at block `lo`: exactly the blocks from `lo` on are unmapped and free, and the
      indirect block too if nothing is left in it; nothing else changed hands. */
  ghost predicate CutMaps(s: Fs, s0: Fs, i: nat, lo: nat) {
    && Core(s0) && Core(s) && i in s.vnodes && i in s0.vnodes
    && s.super == s0.super && |s.disk| == |s0.disk| && s.table == s0.table && s.vnodes.Keys == s0.vnodes.Keys
    && (forall q :: 0 <= q < FILEBLOCKS ==> Slot(s, i, q) == if lo <= q then 0 else Slot(s0, i, q))
    && Ino(s, i).indirect == (if DropsIndirect(s0, i, lo) then 0 else Ino(s0, i).indirect)
    && |s.owner| == |s0.owner|
    && (forall b :: 0 <= b < |s0.owner| ==>
          s.owner[b] == if s0.owner[b].Data? && s0.owner[b].ino == i && lo <= s0.owner[b].pos then Free
                        else if s0.owner[b] == Indirect(i) && DropsIndirect(s0, i, lo) then Free
                        else s0.owner[b])
    && Ino(s, i).links == Ino(s0, i).links && Ino(s, i).typ == Ino(s0, i).typ && Refs(s, i) == Refs(s0, i)
  }

  /** A truncation frees blocks and takes none. */
  lemma CutRoom(s: Fs, s0: Fs, i: nat, lo: nat)
    requires CutMaps(s, s0, i, lo)
    ensures Room(s0.owner) <= Room(s.owner)
  {
    hide Core, Slot, Ino, DropsIndirect;
    RoomMore(s0.owner, s.owner);
  }

  ghost predicate CutDone(s: Fs, s0: Fs, i: nat, lo: nat) {
    && CutMaps(s, s0, i, lo)
    && i in ViewOf(s0) && |ViewOf(s0)[i].bytes| == MAXFILE
    && ViewOf(s) == ViewOf(s0)[i := ViewOf(s0)[i].(bytes := ZeroBlocks(ViewOf(s0)[i].bytes, lo, FILEBLOCKS))]
  }

  lemma CutKept(s: Fs, s0: Fs, i: nat, lo: nat)
    requires Cut(s, s0, i, lo, FILEBLOCKS) && lo <= FILEBLOCKS
    requires !DropsIndirect(s0, i, lo)
    ensures CutDone(s, s0, i, lo)
  {
    hide Clean, ViewOf, Slot, ZeroBlocks, Ino, Bitmap.IsSet;
    forall b | 0 <= b < |s0.owner|
      ensures s0.owner[b].Data? ==> s0.owner[b].pos < FILEBLOCKS
    {
      assert BlockOwned(s0, b);
    }
  }

  /** With all its entries gone the indirect block goes too; what the disk still holds there is immaterial. */
  lemma CutDropped(g: Fs, s0: Fs, i: nat, lo: nat, blk: Block)
    requires Cut(g, s0, i, lo, FILEBLOCKS) && lo <= FILEBLOCKS && Ino(g, i).indirect != 0 && DropsIndirect(s0, i, lo)
    requires Ino(g, i).indirect < g.super.nblocks
    ensures CutDone(SetBlock(FreeIndirect(g, i), Ino(g, i).indirect, blk), s0, i, lo)
  {
    hide Clean, Owned, Core, ViewOf, ZeroBlocks, Slot, Ino, FreeIndirect, Live;
    CutDroppedMaps(g, s0, i, lo, blk);
    CutDroppedOwner(g, s0, i, lo);
  }

  lemma CutDroppedMaps(g: Fs, s0: Fs, i: nat, lo: nat, blk: Block)
    requires Cut(g, s0, i, lo, FILEBLOCKS) && lo <= FILEBLOCKS && Ino(g, i).indirect != 0 && DropsIndirect(s0, i, lo)
    requires Ino(g, i).indirect < g.super.nblocks
    ensures var t := SetBlock(FreeIndirect(g, i), Ino(g, i).indirect, blk);
            && Core(t) && ViewOf(t) == ViewOf(g) && t.super == g.super && |t.disk| == |g.disk| && t.table == g.table
            && t.vnodes.Keys == g.vnodes.Keys && i in t.vnodes && i < |t.disk|
            && t.owner == g.owner[Ino(g, i).indirect := Free]
            && Ino(t, i) == Ino(g, i).(indirect := 0) && Refs(t, i) == Refs(g, i)
    ensures forall q :: 0 <= q < FILEBLOCKS ==>
              Slot(SetBlock(FreeIndirect(g, i), Ino(g, i).indirect, blk), i, q) == Slot(g, i, q)
  {
    hide Clean, Owned, ViewOf, ZeroBlocks, Bitmap.IsSet, WordAt, Flat, Slot;
    var b := Ino(g, i).indirect;
    var u := FreeIndirect(g, i);
    assert forall q :: NDIRECT <= q < FILEBLOCKS ==> Slot(g, i, q) == 0;
    FreeIndirectKeeps(g, i);
    assert FreeBlock(u, b);
    FreeContentsKeep(u, b, blk);
  }

  lemma CutDroppedOwner(g: Fs, s0: Fs, i: nat, lo: nat)
    requires Cut(g, s0, i, lo, FILEBLOCKS) && Ino(g, i).indirect != 0
    ensures Ino(g, i).indirect < |s0.owner| && s0.owner[Ino(g, i).indirect] == Indirect(i)
    ensures forall b :: 0 <= b < |s0.owner| && s0.owner[b] == Indirect(i) ==> b == Ino(g, i).indirect
    ensures forall b :: 0 <= b < |s0.owner| && s0.owner[b].Data? ==> s0.owner[b].pos < FILEBLOCKS
  {
    hide Clean, ViewOf, ZeroBlocks, Bitmap.IsSet, Slot, Ino;
    assert MapsOwned(s0, i);
    forall b | 0 <= b < |s0.owner|
      ensures s0.owner[b] == Indirect(i) ==> b == Ino(g, i).indirect
      ensures s0.owner[b].Data? ==> s0.owner[b].pos < FILEBLOCKS
    {
      assert BlockOwned(s0, b);
    }
  }

  // ---------------------------------------------------------------- what truncation achieves

  ghost function TruncView(v: View, i: nat, len: nat): View
    requires i in v && |v[i].bytes| == MAXFILE
  {
    v[i := v[i].(
      size := len,
      bytes := ZeroBlocks(v[i].bytes, KeptBlocks((len + BLOCKSIZE - 1) / BLOCKSIZE), FILEBLOCKS))]
  }

  /** Setting the size finishes a truncation. */
  lemma SizeAfterCut(s: Fs, s0: Fs, i: nat, lo: nat, size: u32)
    requires CutDone(s, s0, i, lo)
    ensures var t := SetInode(s, i, s.vnodes[i].inode.(size := size));
            && CutMaps(t, s0, i, lo)
            && ViewOf(t) ==
                 ViewOf(s0)[i := ViewOf(s0)[i].(size := size, bytes := ZeroBlocks(ViewOf(s0)[i].bytes, lo, FILEBLOCKS))]
  {
    hide Owned, Clean, ViewOf, ZeroBlocks, WordAt, GetInode;
    var t := SetInode(s, i, s.vnodes[i].inode.(size := size));
    SetMetaKeeps(s, i, s.vnodes[i].inode.(size := size));
    assert ViewOf(s)[i].links == s.vnodes[i].inode.links by {
      ViewMeta(s, i);
    }
    assert forall q :: 0 <= q < FILEBLOCKS ==> Slot(t, i, q) == Slot(s, i, q);
  }

  lemma ViewMeta(s: Fs, i: nat)
    requires Shape(s) && i in s.vnodes
    ensures i in ViewOf(s) && ViewOf(s)[i].links == s.vnodes[i].inode.links
  {
  }

  /** Truncation leaves no block mapped past the new end exactly when the new length stays clear of the indirect
      range, or takes all of it, or the first block past it was not mapped. */
  lemma TruncateFreesPastEnd(s: Fs, s0: Fs, i: nat, blocklen: nat)
    requires CutMaps(s, s0, i, KeptBlocks(blocklen))
    ensures (forall q :: blocklen <= q < FILEBLOCKS ==> Slot(s, i, q) == 0)
       <==> (blocklen < NDIRECT || blocklen >= FILEBLOCKS || Slot(s0, i, blocklen) == 0)
  {
    hide Owned, Clean, Slot;
    if NDIRECT <= blocklen < FILEBLOCKS {
      assert Slot(s, i, blocklen) == Slot(s0, i, blocklen);
    }
  }

  /** After truncation to `len` the bytes from `len` on are zero exactly when those the code keeps already were. */
  lemma TruncateZeroesTail(v: View, i: nat, len: nat)
    requires i in v && |v[i].bytes| == MAXFILE
    ensures (forall k :: len <= k < MAXFILE ==> TruncView(v, i, len)[i].bytes[k] == 0)
       <==> (forall k :: len <= k < MAXFILE && k < KeptBlocks((len + BLOCKSIZE - 1) / BLOCKSIZE) * BLOCKSIZE ==>
         v[i].bytes[k] == 0)
  {
    var lo := KeptBlocks((len + BLOCKSIZE - 1) / BLOCKSIZE);
    var w := TruncView(v, i, len)[i].bytes;
    forall k | 0 <= k < MAXFILE
      ensures w[k] == if k < lo * BLOCKSIZE then v[i].bytes[k] else 0
    {
      assert lo <= k / BLOCKSIZE < FILEBLOCKS <==> k >= lo * BLOCKSIZE;
    }
  }

  /** Truncation to nothing returns exactly the blocks the file held, data and indirect, and leaves all zeros. */
  lemma TruncateToNothing(s: Fs, s0: Fs, i: nat)
    requires CutMaps(s, s0, i, 0)
    ensures Ino(s, i).indirect == 0 && forall q :: 0 <= q < FILEBLOCKS ==> Slot(s, i, q) == 0
    ensures forall b :: 0 <= b < |s0.owner| ==>
              s.owner[b] ==
                if s0.owner[b] == Indirect(i) || (s0.owner[b].Data? && s0.owner[b].ino == i) then Free else s0.owner[b]
  {
    hide Clean, Slot, Ino, Bitmap.IsSet;
    forall b | 0 <= b < |s0.owner| && s0.owner[b] == Indirect(i)
      ensures DropsIndirect(s0, i, 0)
    {
      assert BlockOwned(s0, b) && BlockOwned(s0, SB_LOCATION);
    }
  }
}
