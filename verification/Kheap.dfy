/** kmalloc and kfree (os161/kern/lib/kheap.c).  alloc_kpages is an argument: the address of fresh pages, or 0. */
module Kheap {
  import opened Bits
  import opened KheapModel
  import opened Seqs

  /** Two stretches of memory do not overlap. */
  predicate Apart(a: nat, n: nat, c: nat, m: nat) {
    a + n <= c || c + m <= a
  }

  lemma WalkFacts(h: Heap, t: nat)
    requires Inv(h) && t < NSIZES
    ensures h.sizebases[t] == Nth(h.same[t], 0) && Distinct(h.same[t])
    ensures forall k :: 0 <= k < |h.same[t]| ==>
              h.same[t][k] < NPAGEREFS && h.same[t][k] in h.all && BlockType(h.prs[h.same[t][k]]) == t
              && h.prs[h.same[t][k]].nextSame == Nth(h.same[t], k + 1)
  {
    hide Pages, InUse, TypeOf;
    assert SameList(h.prs, h.sizebases[t], h.same[t]);
    forall k | 0 <= k < |h.same[t]|
      ensures h.same[t][k] in h.all && BlockType(h.prs[h.same[t][k]]) == t
    {
      assert OnList(h, t, h.same[t][k]) && h.same[t][k] in h.same[t];
    }
  }

  lemma AllFacts(h: Heap)
    requires Inv(h)
    ensures h.allbase == Nth(h.all, 0) && Distinct(h.all)
    ensures forall k :: 0 <= k < |h.all| ==>
              h.all[k] < NPAGEREFS && h.all[k] in h.all && BlockType(h.prs[h.all[k]]) < NSIZES
                && h.prs[h.all[k]].nextAll == Nth(h.all, k + 1)
  {
    hide Pages, InUse, TypeOf;
  }

  lemma AllHead(h: Heap)
    requires Inv(h)
    ensures h.allbase == Nth(h.all, 0)
  {
    hide Pages, InUse, TypeOf;
  }

  /** One step of the walk down next_all. */
  lemma AllStep(h: Heap, k: nat)
    requires Inv(h) && k < |h.all|
    ensures |h.prs| == NPAGEREFS && forall j :: 0 <= j < |h.all| ==> h.all[j] < NPAGEREFS
    ensures h.prs[h.all[k]].nextAll == Nth(h.all, k + 1)
    ensures forall j :: 0 <= j < |h.all| && h.all[j] == h.all[k] ==> j == k
  {
    hide Pages, InUse, TypeOf;
  }

  lemma OfType(h: Heap, i: nat)
    requires Inv(h) && i in h.all && i < NPAGEREFS
    ensures BlockType(h.prs[i]) < NSIZES && i in h.same[BlockType(h.prs[i])]
  {
    hide Pages, InUse, TypeOf, SameList, AllList;
    var k :| 0 <= k < |h.all| && h.all[k] == i;
    assert OnList(h, BlockType(h.prs[i]), i);
  }

  lemma Locate(h: Heap, i: nat, t: nat) returns (ks: nat, ka: nat)
    requires Inv(h) && i in h.all && i < NPAGEREFS && BlockType(h.prs[i]) == t && t < NSIZES
    ensures Located(h, i, t, ks, ka)
  {
    hide Pages, Lists, TypeOf;
    OfType(h, i);
    WalkFacts(h, t);
    ks :| 0 <= ks < |h.same[t]| && h.same[t][ks] == i;
    ka :| 0 <= ka < |h.all| && h.all[ka] == i;
  }

  class KheapObj {
    var prs: seq<PageRef>
    var inuse: seq<nat>
    var sizebases: seq<nat>
    var allbase: nat
    /** Words of memory by address. */
    var mem: map<nat, nat>
    ghost var all: seq<nat>
    ghost var same: seq<seq<nat>>
    ghost var free: seq<seq<nat>>
    /** Whole-page allocations not yet freed: address to number of pages. */
    ghost var big: map<nat, nat>

    ghost function H(): Heap
      reads this
    {
      Heap(prs, inuse, sizebases, allbase, mem, all, same, free)
    }

    ghost predicate Valid()
      reads this
    {
      Inv(H()) && Tight(H())
    }

    /** allocpageref: the least page reference not in use, now in use; NIL exactly when there is none. */
    method AllocPageRef() returns (i: nat)
      requires Inv(H())
      modifies this`inuse
      ensures i == NIL ==> inuse == old(inuse) && forall j :: 0 <= j < NPAGEREFS ==> InUse(inuse, j)
      ensures i != NIL ==> i < NPAGEREFS && !InUse(old(inuse), i) && inuse == UseRef(old(inuse), i)
      ensures i != NIL ==> forall j :: 0 <= j < i ==> InUse(old(inuse), j)
    {
      hide Pages, Lists, Bit, Set;
      PowWord();
      for w := 0 to INUSE_WORDS
        invariant inuse == old(inuse)
        invariant forall j :: 0 <= j < 32 * w ==> InUse(inuse, j)
      {
        if inuse[w] == 0xffff_ffff {
          forall j | 32 * w <= j < 32 * w + 32
            ensures InUse(inuse, j)
          {
            OnesHaveBits(32, j % 32);
          }
        } else {
          assert inuse[w] < Pow2(32) - 1;
          ghost var c := HasClearBit(inuse[w], 32);
          for j := 0 to 32
            invariant inuse == old(inuse) && j <= c
            invariant forall k :: 0 <= k < 32 * w + j ==> InUse(inuse, k)
          {
            if !Bit(inuse[w], j) {
              inuse := inuse[w := Set(inuse[w], j)];
              return 32 * w + j;
            }
            assert InUse(inuse, 32 * w + j);
          }
          assert false;
        }
      }
      i := NIL;
    }

    /** freepageref */
    method FreePageRef(i: nat)
      requires |inuse| == INUSE_WORDS && i < NPAGEREFS && InUse(inuse, i)
      modifies this`inuse
      ensures inuse == UnuseRef(old(inuse), i)
    {
      inuse := inuse[i / 32 := Clear(inuse[i / 32], i % 32)];
    }

    /** blocktype: the smallest block size that holds `sz` bytes. */
    static method BlockTypeFor(sz: nat) returns (t: nat)
      requires sz <= LARGEST_SUBPAGE_SIZE
      ensures Fits(sz, t)
    {
      t := 0;
      assert sz <= Size(NSIZES - 1);
      while t < NSIZES && sz > Size(t)
        invariant 0 <= t <= NSIZES && forall u :: 0 <= u < t ==> Size(u) < sz
      {
        t := t + 1;
      }
    }

    /** The doalloc part of subpage_kmalloc: the first free block of page reference `i`. */
    method DoAlloc(i: nat) returns (r: nat)
      requires Inv(H()) && i in all && i < NPAGEREFS && prs[i].nfree > 0
      modifies this`prs, this`free
      ensures Inv(H()) && old(|free[i]| > 0) && old(BlockType(prs[i])) < NSIZES && H() == old(Pop(H(), i))
      ensures r == old(Addr(H(), i, free[i][0]))
    {
      hide Pages, Lists, Offset, Size, NBlocks, PageOf, TypeOf;
      ghost var h := H();
      FreeFacts(h, i);
      PopKeeps(h, i);
      assert prs[i].freelistOffset < PAGE_SIZE;
      var prpage := PageAddr(prs[i]);
      r := prpage + prs[i].freelistOffset;
      var fl := mem[r];
      prs := prs[i := prs[i].(nfree := prs[i].nfree - 1)];
      if fl != 0 {
        assert prs[i].nfree > 0;
        prs := prs[i := prs[i].(freelistOffset := fl - prpage)];
      } else {
        assert prs[i].nfree == 0;
        prs := prs[i := prs[i].(freelistOffset := INVALID_OFFSET)];
      }
      free := free[i := free[i][1..]];
      assert H().prs == Pop(h, i).prs;
    }

    /** The walk down one sizebases list: a page with a free block, or NIL if there is none. */
    method FindPage(t: nat) returns (pr: nat)
      requires Inv(H()) && t < NSIZES
      ensures pr != NIL ==> pr < NPAGEREFS && pr in all && BlockType(prs[pr]) == t && prs[pr].nfree > 0
      ensures pr == NIL ==> forall i :: i in same[t] ==> i < NPAGEREFS && prs[i].nfree == 0
    {
      hide Pages, Lists, TypeOf;
      WalkFacts(H(), t);
      pr := sizebases[t];
      ghost var k := 0;
      while pr != NIL
        invariant 0 <= k <= |same[t]| && pr == Nth(same[t], k)
        invariant forall j :: 0 <= j < k ==> prs[same[t][j]].nfree == 0
        decreases |same[t]| - k
      {
        assert BlockType(prs[pr]) == t;
        if prs[pr].nfree > 0 {
          return;
        }
        pr := prs[pr].nextSame;
        k := k + 1;
      }
    }

    /** Threads the free list through a fresh page. */
    method ThreadPage(page: nat, t: nat)
      requires t < NSIZES
      modifies this`mem
      ensures Threaded(mem, page, t)
      ensures SameBut(old(mem), mem, page, PAGE_SIZE)
    {
      hide Offset, Size, NBlocks;
      var n := NBlocks(t);
      OffsetFacts(t, 0);
      OffsetZero(t);
      mem := mem[page := 0];
      for i := 1 to n
        invariant forall b :: 0 <= b < i ==>
                    page + Offset(t, b) in mem && mem[page + Offset(t, b)] ==
                      if b > 0 then page + Offset(t, b - 1) else 0
        invariant SameBut(old(mem), mem, page, PAGE_SIZE)
      {
        OffsetFacts(t, i);
        forall b | 0 <= b < i
          ensures Offset(t, b) != Offset(t, i)
        {
          OffsetOrder(t, b, i);
        }
        mem := mem[page + Offset(t, i) := page + Offset(t, i - 1)];
      }
    }

    /** Makes a fresh page, whose reference `i` has just been allocated, part of the heap. */
    method InstallPage(i: nat, page: nat, t: nat, ghost h: Heap)
      requires Inv(h) && i < NPAGEREFS && t < NSIZES && !InUse(h.inuse, i) && NewPage(h, page)
      requires H() == h.(inuse := UseRef(h.inuse, i))
      modifies this
      ensures Inv(H()) && big == old(big) && H() == AddPage(h, i, page, t, mem) && i !in h.all
      ensures SameBut(old(mem), mem, page, PAGE_SIZE)
      ensures forall j, b :: LiveBlock(H(), j, b) <==> LiveBlock(h, j, b)
    {
      hide Pages, Lists, Offset, Size, NBlocks, PageOf, TypeOf, InUse, Threaded;
      ThreadPage(page, t);
      OthersUntouched(h, page, mem);
      AddPageKeeps(h, i, page, t, mem);
      prs := prs[i := PageRef(sizebases[t], allbase, page + t, Offset(t, NBlocks(t) - 1), NBlocks(t))];
      sizebases := sizebases[t := i];
      allbase := i;
      all := [i] + all;
      same := same[t := [i] + same[t]];
      free := free[i := Down(NBlocks(t))];
    }

    /** subpage_kmalloc: a block of the smallest sufficient size that was not live, or 0 with nothing changed when no
        page of that size has a free block and no fresh page or page reference is to be had. */
    method SubpageKmalloc(sz: nat, page: nat) returns (r: nat, asked: bool)
      requires Valid() && sz <= LARGEST_SUBPAGE_SIZE && (page == 0 || NewPage(H(), page))
      modifies this
      ensures Valid() && big == old(big)
      ensures r == 0 ==> H() == old(H()) && NoRoom(sz) && (page == 0 || (NoRefs() && !asked))
      ensures r != 0 ==> exists t :: Fits(sz, t) && r % Size(t) == 0 && Gained(old(H()), H(), r, Size(t))
      ensures SameBut(old(mem), mem, page, if page == 0 then 0 else PAGE_SIZE)
      ensures forall i :: i in all && i < NPAGEREFS ==>
                (i in old(all) && prs[i].pab == old(prs)[i].pab) || (asked && page != 0 && PageAddr(prs[i]) == page)
    {
      hide Lists, Pages, Offset, Size, NBlocks, PageOf, TypeOf, InUse, Gained, UseRef, UnuseRef, LiveBlock;
      ghost var h := H();
      var t := BlockTypeFor(sz);
      var pr := FindPage(t);
      if pr != NIL {
        r := AllocFrom(pr, t, h);
        return r, false;
      }
      FitsOne(sz, t);
      pr := AllocPageRef();
      if pr == NIL {
        return 0, false;
      }
      UseRefBits(h.inuse, pr);
      if page == 0 {
        FreePageRef(pr);
        UseUnuse(h.inuse, pr);
        return 0, true;
      }
      asked := true;
      InstallPage(pr, page, t, h);
      FreshPageFacts(h, pr, page, t, mem);
      r := AllocFrom(pr, t, h);
    }

    /** Allocation from a page with a free block; `h` is the heap before that page was added, if it was. */
    method AllocFrom(pr: nat, t: nat, ghost h: Heap) returns (r: nat)
      requires Inv(H()) && pr in all && pr < NPAGEREFS && t < NSIZES && BlockType(prs[pr]) == t && prs[pr].nfree > 0
      requires Inv(h) && forall j, b :: LiveBlock(H(), j, b) <==> LiveBlock(h, j, b)
      requires forall j :: 0 <= j < NPAGEREFS && j in h.all ==> j in all && prs[j].pab == h.prs[j].pab
      requires forall i :: i in all && i != pr ==> i < NPAGEREFS && |free[i]| < NBlocks(BlockType(prs[i]))
      modifies this
      ensures Valid() && big == old(big) && r > 0 && r % Size(t) == 0 && Gained(h, H(), r, Size(t))
      ensures all == old(all) && mem == old(mem) && forall i :: 0 <= i < NPAGEREFS ==> prs[i].pab == old(prs)[i].pab
    {
      hide Lists, Pages, Offset, Size, NBlocks, PageOf, TypeOf, Gained, LiveBlock;
      ghost var g := H();
      FreeFacts(g, pr);
      FreeCount(g, pr);
      PopKeeps(g, pr);
      ghost var b := g.free[pr][0];
      FreeNotLive(g, pr);
      r := DoAlloc(pr);
      assert LiveBlock(H(), pr, b);
      GainedBlock(h, H(), pr, b);
      AddrAligned(g, pr, b);
      assert Tight(H());
    }

    /** The first loop of remove_lists. */
    method UnlinkFromSize(i: nat, t: nat, ghost ks: nat, ghost ka: nat)
      requires Inv(H()) && Located(H(), i, t, ks, ka)
      modifies this`prs, this`sizebases
      ensures prs == UnlinkSame(old(prs), same[t], ks)
      ensures sizebases == if ks == 0 then old(sizebases)[t := old(prs)[i].nextSame] else old(sizebases)
    {
      hide Pages, Lists, TypeOf;
      WalkFacts(H(), t);
      var prev, guy := NIL, sizebases[t];
      ghost var k := 0;
      while guy != NIL
        invariant 0 <= k <= ks && guy == Nth(same[t], k) && prs == old(prs) && sizebases == old(sizebases)
        invariant k > 0 ==> prev == same[t][k - 1]
        invariant k == 0 ==> prev == NIL
        decreases |same[t]| - k
      {
        if guy == i {
          assert k == ks;
          if prev == NIL {
            sizebases := sizebases[t := prs[i].nextSame];
          } else {
            prs := prs[prev := prs[prev].(nextSame := prs[i].nextSame)];
          }
          return;
        }
        prev := guy;
        guy := prs[guy].nextSame;
        k := k + 1;
      }
    }

    /** The second loop of remove_lists. */
    method UnlinkFromAll(i: nat, ghost ka: nat, ghost h: Heap)
      requires Inv(h) && all == h.all && allbase == h.allbase && |prs| == NPAGEREFS && ka < |all| && all[ka] == i
      requires forall j :: 0 <= j < NPAGEREFS ==> prs[j].nextAll == h.prs[j].nextAll
      modifies this`prs, this`allbase
      ensures (forall j :: 0 <= j < |all| ==> all[j] < |old(prs)|) && prs == UnlinkAll(old(prs), all, ka)
      ensures allbase == if ka == 0 then old(prs)[i].nextAll else old(allbase)
    {
      hide Inv;
      AllHead(h);
      AllStep(h, 0);
      var prev, guy := NIL, allbase;
      ghost var k := 0;
      while guy != NIL
        invariant 0 <= k <= ka && guy == all[k] && prs == old(prs) && allbase == old(allbase)
        invariant prev == if k == 0 then NIL else all[k - 1]
        decreases |all| - k
      {
        AllStep(h, k);
        if guy == i {
          if prev == NIL {
            allbase := prs[i].nextAll;
          } else {
            prs := prs[prev := prs[prev].(nextAll := prs[i].nextAll)];
          }
          return;
        }
        prev := guy;
        guy := prs[guy].nextAll;
        k := k + 1;
      }
    }

    /** A page with no live block leaves the heap: remove_lists, then freepageref. */
    method ReleasePage(i: nat, t: nat)
      requires Inv(H()) && i in all && i < NPAGEREFS && BlockType(prs[i]) == t && t < NSIZES
      modifies this
      ensures Inv(H()) && big == old(big) && mem == old(mem)
      ensures forall j, b :: LiveBlock(H(), j, b) <==> LiveBlock(old(H()), j, b) && j != i
      ensures forall j :: j in all <==> j in old(all) && j != i
      ensures forall j :: 0 <= j < NPAGEREFS ==> prs[j].pab == old(prs)[j].pab
      ensures free == old(free)
    {
      hide Pages, Lists, TypeOf, Offset, Size, NBlocks, PageOf, UnlinkAll, UnlinkSame, InUse, UnuseRef, Without,
        LiveBlock;
      ghost var h := H();
      ghost var ks, ka := Locate(h, i, t);
      InAllIff(h, i);
      RemovePageKeeps(h, i, t, ks, ka);
      RemovePagePrs(h, i, t, ks, ka);
      UnlinkFromSize(i, t, ks, ka);
      UnlinkFromAll(i, ka, h);
      FreePageRef(i);
      all := Without(all, ka);
      same := same[t := Without(same[t], ks)];
      UnlinkNext(h, i, t, ks, ka);
      assert H() == RemovePage(h, i, t, ks, ka);
    }

    /** The walk down allbase for the page that holds `ptr`; NIL if none does. */
    method PageHolding(ptr: nat) returns (pr: nat)
      requires Inv(H())
      ensures pr != NIL ==> pr < NPAGEREFS && pr in all && PageAddr(prs[pr]) <= ptr < PageAddr(prs[pr]) + PAGE_SIZE
      ensures pr == NIL ==> forall i :: i in all ==>
        i < NPAGEREFS && !(PageAddr(prs[i]) <= ptr < PageAddr(prs[i]) + PAGE_SIZE)
    {
      hide Pages, Lists, TypeOf, PageOf;
      AllFacts(H());
      pr := allbase;
      ghost var k := 0;
      while pr != NIL
        invariant 0 <= k <= |all| && pr == Nth(all, k)
        invariant forall j :: 0 <= j < k ==> !(PageAddr(prs[all[j]]) <= ptr < PageAddr(prs[all[j]]) + PAGE_SIZE)
        decreases |all| - k
      {
        if PageAddr(prs[pr]) <= ptr < PageAddr(prs[pr]) + PAGE_SIZE {
          return;
        }
        pr := prs[pr].nextAll;
        k := k + 1;
      }
    }

    /** fill_deadbeef over a live block. */
    method FillDeadbeef(ptr: nat, i: nat, ghost b: nat)
      requires Inv(H()) && LiveBlock(H(), i, b) && ptr == Addr(H(), i, b)
      modifies this`mem
      ensures Inv(H()) && H() == old(H()).(mem := mem)
      ensures SameBut(old(mem), mem, ptr, Size(BlockType(prs[i])))
      ensures forall k :: 0 <= k < Size(BlockType(prs[i])) / 4 ==> ptr + 4 * k in mem && mem[ptr + 4 * k] == 0xdead_beef
    {
      hide Lists, Pages, Offset, Size, NBlocks, PageOf, TypeOf;
      LiveInAll(H(), i, b);
      var n := Size(BlockType(prs[i]));
      for k := 0 to n / 4
        invariant Inv(H()) && H() == old(H()).(mem := mem)
        invariant SameBut(old(mem), mem, ptr, n)
        invariant forall j :: 0 <= j < k ==> ptr + 4 * j in mem && mem[ptr + 4 * j] == 0xdead_beef
      {
        WriteLive(H(), i, b, ptr + 4 * k, 0xdead_beef);
        mem := mem[ptr + 4 * k := 0xdead_beef];
      }
    }

    /** Links block `b` in front of its page's free list; tells whether the whole page is now free. */
    method PutBack(pr: nat, offset: nat, ghost b: nat) returns (full: bool)
      requires Inv(H()) && LiveBlock(H(), pr, b) && offset == Offset(BlockType(prs[pr]), b)
      modifies this
      ensures Inv(H()) && big == old(big) && old(Shape(H())) && H() == old(Push(H(), pr, b))
      ensures SameBut(old(mem), mem, PageAddr(prs[pr]) + offset, 1)
      ensures full <==> prs[pr].nfree == NBlocks(BlockType(prs[pr]))
    {
      hide Lists, Pages, Offset, Size, PageOf, TypeOf;
      ghost var g := H();
      LiveInAll(g, pr, b);
      FreeFacts(g, pr);
      PushKeeps(g, pr, b);
      var prpage := PageAddr(prs[pr]);
      if prs[pr].freelistOffset == INVALID_OFFSET {
        mem := mem[prpage + offset := 0];
      } else {
        mem := mem[prpage + offset := prpage + prs[pr].freelistOffset];
      }
      prs := prs[pr := prs[pr].(freelistOffset := offset, nfree := prs[pr].nfree + 1)];
      free := free[pr := [b] + free[pr]];
      assert H() == Push(g, pr, b);
      FreeCount(H(), pr);
      assert prs[pr].nfree <= PAGE_SIZE / Size(BlockType(prs[pr]));
      full := prs[pr].nfree == PAGE_SIZE / Size(BlockType(prs[pr]));
    }

    /** subpage_kfree of a live block, or of an address on none of the heap's pages.  The block stops being
        live, no other does, and its page is given back (`released`) exactly when that was its last live
        block. */
    method SubpageKfree(ptr: nat) returns (found: bool, released: nat)
      requires Valid()
        && ((exists n :: IsLive(H(), ptr, n))
            || forall i :: i in all ==> i < NPAGEREFS && !(PageAddr(prs[i]) <= ptr < PageAddr(prs[i]) + PAGE_SIZE))
      modifies this
      ensures Valid() && big == old(big)
      ensures found <==> exists n :: IsLive(old(H()), ptr, n)
      ensures !found ==> H() == old(H()) && released == 0
      ensures found ==> Lost(old(H()), H(), ptr)
      ensures forall n :: IsLive(old(H()), ptr, n) ==> SameBut(old(mem), mem, ptr, n)
      ensures forall i :: i in all ==> i in old(all) && i < NPAGEREFS && prs[i].pab == old(prs)[i].pab
      ensures forall i :: i in old(all) && i < NPAGEREFS ==>
        (i !in all <==> released != 0 && released == PageAddr(old(prs)[i]))
    {
      hide Lists, Pages, Offset, Size, NBlocks, PageOf, TypeOf, LiveBlock, Lost;
      ghost var h := H();
      released := 0;
      var pr := PageHolding(ptr);
      if pr == NIL {
        NotOnPage(h, ptr);
        return false, 0;
      }
      ghost var n :| IsLive(h, ptr, n);
      ghost var b := LiveOn(h, ptr, n, pr);
      var prpage, blktype := PageAddr(prs[pr]), BlockType(prs[pr]);
      var offset := ptr - prpage;
      FillDeadbeef(ptr, pr, b);
      ghost var g := H();
      FillKeeps(h, g);
      OffsetBack(h, pr, b);
      assert offset < PAGE_SIZE && offset % Size(blktype) == 0;
      var full := PutBack(pr, offset, b);
      SameTwice(h.mem, g.mem, mem, ptr, n);
      PushKeeps(g, pr, b);
      FreeCount(H(), pr);
      if full {
        ReleasePage(pr, blktype);
        released := prpage;
      }
      LostBlock(h, H(), pr, b);
      PageDistinct(h, pr);
      found := true;
      LiveOnce(h, ptr, n);
    }

    // -------------------------------------------------------------- kmalloc and kfree

    /** Whole-page allocations are page-aligned and apart from each other and from the heap's pages. */
    ghost predicate BigOk()
      reads this
    {
      && |prs| == NPAGEREFS
      && (forall a :: a in big ==> a > 0 && a % PAGE_SIZE == 0 && big[a] > 0)
      && (forall a, c :: a in big && c in big && a != c ==> Apart(a, big[a] * PAGE_SIZE, c, big[c] * PAGE_SIZE))
      && (forall a, i :: a in big && i in all && i < NPAGEREFS ==>
           Apart(a, big[a] * PAGE_SIZE, PageAddr(prs[i]), PAGE_SIZE))
    }

    ghost predicate Ok()
      reads this
    {
      Valid() && BigOk()
    }

    /** `n` pages at `a` that are in nobody's use: what alloc_kpages hands out. */
    ghost predicate FreshPages(a: nat, n: nat)
      reads this
      requires Ok()
    {
      && a > 0 && a % PAGE_SIZE == 0 && n > 0
      && (forall c :: c in big ==> Apart(a, n * PAGE_SIZE, c, big[c] * PAGE_SIZE))
      && (forall i :: i in all && i < NPAGEREFS ==> Apart(a, n * PAGE_SIZE, PageAddr(prs[i]), PAGE_SIZE))
    }

    /** Somebody holds `n` bytes at `a`. */
    ghost predicate Holds(a: nat, n: nat)
      reads this
      requires Ok()
    {
      IsLive(H(), a, n) || (a in big && n == big[a] * PAGE_SIZE)
    }

    constructor ()
      ensures Ok() && forall a, n :: !Holds(a, n)
      ensures all == [] && big == map[]
    {
      prs := seq(NPAGEREFS, _ => PageRef(NIL, NIL, 0, 0, 0));
      inuse := seq(INUSE_WORDS, _ => 0);
      sizebases := seq(NSIZES, _ => NIL);
      allbase := NIL;
      mem, big := map[], map[];
      all, same, free := [], seq(NSIZES, _ => []), seq(NPAGEREFS, _ => []);
      new;
      forall i | 0 <= i < NPAGEREFS
        ensures !InUse(inuse, i)
      {
        ZeroBits(i % 32);
      }
    }

    lemma LiveNotBig(a: nat, n: nat)
      requires Ok() && IsLive(H(), a, n)
      ensures a !in big
    {
      hide Lists, Pages, PageOf, TypeOf, Size, Offset, NBlocks;
      LiveInPage(H(), a, n);
    }

    lemma NobodyThere(a: nat, n: nat)
      requires Ok() && FreshPages(a, n)
      ensures forall m :: !Holds(a, m)
    {
      hide Lists, Pages, PageOf, TypeOf, Size, Offset, NBlocks;
      forall m | IsLive(H(), a, m)
        ensures false
      {
        LiveInPage(H(), a, m);
      }
    }

    lemma FreshIsNew(page: nat)
      requires Ok() && FreshPages(page, 1)
      ensures NewPage(H(), page)
    {
      hide Lists, Pages, TypeOf, PageOf, Tight;
    }

    /** kmalloc.  `pages` is what alloc_kpages returns if it is called, and `asked` tells whether it was.  The
        caller gets the smallest block (or whole pages) that is enough, which nobody held, and what others
        hold is as it was; or 0, with nothing held changed, when there are no pages to be had or no page
        reference to record one. */
    method Kmalloc(sz: nat, pages: nat) returns (r: nat, asked: bool)
      requires Ok() && sz <= MAX_REQUEST && (pages == 0 || FreshPages(pages, PagesFor(sz)))
      modifies this
      ensures Ok() && Answers(sz, pages, asked, r)
      ensures r == 0 ==> if sz >= LARGEST_SUBPAGE_SIZE then pages == 0 else NoRoom(sz) && (pages == 0 || NoRefs())
    {
      if sz >= LARGEST_SUBPAGE_SIZE {
        r, asked := PageKmalloc(sz, pages);
      } else {
        r, asked := SmallKmalloc(sz, pages);
      }
    }

    /** The large half of kmalloc. */
    method PageKmalloc(sz: nat, pages: nat) returns (r: nat, asked: bool)
      requires Ok() && sz <= MAX_REQUEST && (pages == 0 || FreshPages(pages, PagesFor(sz)))
        && sz >= LARGEST_SUBPAGE_SIZE
      modifies this
      ensures Ok() && Answers(sz, pages, asked, r) && r == pages
    {
      hide Lists, Pages, PageOf, TypeOf, IsLive, Tight, PagesFor;
      RoundUpCovers(sz);
      var npages := (sz + PAGE_SIZE - 1) % 0x1_0000_0000 / PAGE_SIZE;
      r, asked := pages, true;
      if r != 0 {
        NobodyThere(pages, npages);
        big := big[pages := npages];
        assert Grants(sz, r, npages * PAGE_SIZE) && NowHolds(r, npages * PAGE_SIZE);
      }
    }

    /** The small half of kmalloc: subpage_kmalloc. */
    method SmallKmalloc(sz: nat, pages: nat) returns (r: nat, asked: bool)
      requires Ok() && sz <= MAX_REQUEST && (pages == 0 || FreshPages(pages, PagesFor(sz))) && sz < LARGEST_SUBPAGE_SIZE
      modifies this
      ensures Ok() && Answers(sz, pages, asked, r) && (r == 0 ==> NoRoom(sz) && (pages == 0 || NoRefs()))
    {
      hide Lists, Pages, PageOf, TypeOf, IsLive, Tight, Gained, Size;
      if pages != 0 {
        FreshIsNew(pages);
        FreshApart(pages, 1);
      }
      ghost var h := H();
      r, asked := SubpageKmalloc(sz, pages);
      if r != 0 {
        ghost var t :| Fits(sz, t) && r % Size(t) == 0 && Gained(h, H(), r, Size(t));
        GainedIs(h, H(), r, Size(t));
        assert BigOk();
        LiveNotBig(r, Size(t));
        assert NowHolds(r, Size(t));
      }
    }

    /** The answer `r` to a request for `sz` bytes, when `pages` is what the page allocator has to offer. */
    twostate predicate Answers(sz: nat, pages: nat, asked: bool, r: nat)
      requires old(Ok()) && Ok()
      reads this
    {
      && (r == 0 ==> (pages == 0 || !asked) && forall a, n :: Holds(a, n) <==> old(Holds(a, n)))
      && (r != 0 ==> exists k :: Grants(sz, r, k) && NowHolds(r, k))
      && (forall a, n :: old(Holds(a, n)) ==> Intact(a, n))
      && (forall i :: i in all && i < NPAGEREFS ==>
            (i in old(all) && prs[i].pab == old(prs)[i].pab) || (asked && pages != 0 && PageAddr(prs[i]) == pages))
      && (forall a :: a in big ==>
            (a in old(big) && big[a] == old(big)[a]) || (asked && pages != 0 && a == pages && big[a] == PagesFor(sz)))
    }

    /** What was held at `a` is as it was, word for word. */
    twostate predicate Intact(a: nat, n: nat)
      reads this
    {
      forall w :: a <= w < a + n ==> (w in mem <==> w in old(mem)) && (w in mem ==> mem[w] == old(mem)[w])
    }

    /** No page of the size that fits `sz` has a free block. */
    ghost predicate NoRoom(sz: nat)
      reads this
      requires Valid()
    {
      forall t, i :: Fits(sz, t) && i in same[t] ==> i < NPAGEREFS && prs[i].nfree == 0
    }

    ghost predicate NoRefs()
      reads this
      requires Valid()
    {
      forall j :: 0 <= j < NPAGEREFS ==> InUse(inuse, j)
    }

    /** Pages in nobody's use are apart from everything that is held. */
    lemma FreshApart(page: nat, npages: nat)
      requires Ok() && FreshPages(page, npages)
      ensures forall a, n :: Holds(a, n) ==> Apart(a, n, page, PAGE_SIZE)
    {
      hide Lists, Pages, PageOf, TypeOf, IsLive, Tight;
      forall a, n | Holds(a, n)
        ensures Apart(a, n, page, PAGE_SIZE)
      {
        if IsLive(H(), a, n) {
          LiveInPage(H(), a, n);
        }
      }
    }

    /** Nobody held anything at `r`; now just the `k` bytes there are held too. */
    twostate predicate NowHolds(r: nat, k: nat)
      requires old(Ok()) && Ok()
      reads this
    {
      && (forall m :: !old(Holds(r, m)))
      && forall a, n :: Holds(a, n) <==> old(Holds(a, n)) || (a == r && n == k)
    }

    /** kfree of something held, or of the null pointer: just that stops being held. */
    method Kfree(ptr: nat)
      requires Ok() && (ptr == 0 || exists n :: Holds(ptr, n))
      modifies this
      ensures Ok() && forall a, n :: Holds(a, n) <==> old(Holds(a, n)) && a != ptr
      ensures forall a, n :: Holds(a, n) ==> Intact(a, n)
      ensures forall i :: i in all && i < NPAGEREFS ==> i in old(all) && prs[i].pab == old(prs)[i].pab
      ensures forall a :: a in big ==> a in old(big) && big[a] == old(big)[a]
    {
      hide Lists, Pages, PageOf, TypeOf, IsLive, Tight, Lost;
      ghost var h := H();
      if ptr == 0 {
        NothingAtZero(h);
        return;
      }
      BigOffPages(ptr);
      forall a, n, m | Holds(a, n) && a != ptr && Holds(ptr, m)
        ensures Apart(a, n, ptr, m)
      {
        HeldDisjoint(a, n, ptr, m);
      }
      var found, released := SubpageKfree(ptr);
      if !found {
        assert ptr % PAGE_SIZE == 0;
        NotLiveAt(h, ptr);
        big := big - {ptr};
      } else {
        LostIs(h, H(), ptr);
        ghost var n :| IsLive(h, ptr, n);
        assert ptr !in big by {
          LiveHeapNotBig(h, old(big), ptr, n);
        }
      }
    }

    /** The holder of `n` bytes at `c` stores a word somewhere in them. */
    method Store(a: nat, w: nat, ghost c: nat, ghost n: nat)
      requires Ok() && Holds(c, n) && c <= a < c + n
      modifies this`mem
      ensures Ok() && mem == old(mem)[a := w]
      ensures forall d, m :: Holds(d, m) <==> old(Holds(d, m))
    {
      hide Lists, Pages, PageOf, TypeOf, Size, Offset, NBlocks;
      ghost var h := H();
      if IsLive(h, c, n) {
        ghost var i: nat, b: nat :| LiveBlock(h, i, b) && Addr(h, i, b) == c && Size(BlockType(h.prs[i])) == n;
        WriteLive(h, i, b, a, w);
      } else {
        WriteElsewhere(h, a, w);
      }
      mem := mem[a := w];
      assert H() == h.(mem := h.mem[a := w]);
      SameLive(h, a, w);
    }

    lemma BigOffPages(ptr: nat)
      requires Ok() && exists n :: Holds(ptr, n)
      ensures (exists n :: IsLive(H(), ptr, n))
        || forall i :: i in all ==> i < NPAGEREFS && !(PageAddr(prs[i]) <= ptr < PageAddr(prs[i]) + PAGE_SIZE)
    {
      hide Lists, Pages, PageOf, TypeOf, IsLive, Tight;
    }

    /** Everything held is disjoint from everything else held. */
    lemma HeldDisjoint(a: nat, n: nat, c: nat, m: nat)
      requires Ok() && Holds(a, n) && Holds(c, m)
      ensures a == c ==> n == m
      ensures a != c ==> Apart(a, n, c, m)
    {
      hide Lists, Pages, PageOf, TypeOf, IsLive, Tight;
      if IsLive(H(), a, n) && IsLive(H(), c, m) {
        LiveDisjoint(H(), a, n, c, m);
      } else if IsLive(H(), a, n) {
        LiveInPage(H(), a, n);
      } else if IsLive(H(), c, m) {
        LiveInPage(H(), c, m);
      }
    }
  }

  /** The smallest block size that holds `sz` bytes. */
  ghost predicate Fits(sz: nat, t: int) {
    0 <= t < NSIZES && sz <= Size(t) && forall u :: 0 <= u < t ==> Size(u) < sz
  }

  lemma FitsOne(sz: nat, t: nat)
    requires Fits(sz, t)
    ensures forall u :: Fits(sz, u) ==> u == t
  {
    hide Size;
  }

  /** What a request for `sz` bytes gets: the smallest block that is enough, or whole pages, aligned to its size. */
  ghost predicate Grants(sz: nat, r: nat, k: nat) {
    if sz >= LARGEST_SUBPAGE_SIZE then r % PAGE_SIZE == 0 && k == PagesFor(sz) * PAGE_SIZE
    else exists t :: Fits(sz, t) && k == Size(t) && r % k == 0
  }

  /** The two memories differ at most in the `n` words from `lo` on. */
  ghost predicate SameBut(m: map<nat, nat>, w: map<nat, nat>, lo: nat, n: nat) {
    forall a :: !(lo <= a < lo + n) ==> (a in m <==> a in w) && (a in m ==> m[a] == w[a])
  }

  lemma SameLive(h: Heap, a: nat, w: nat)
    requires Shape(h)
    ensures Shape(h.(mem := h.mem[a := w]))
    ensures forall d, m :: IsLive(h.(mem := h.mem[a := w]), d, m) <==> IsLive(h, d, m)
  {
    hide PageOf, TypeOf, Size, Offset, NBlocks;
    var g := h.(mem := h.mem[a := w]);
    assert forall i, b :: LiveBlock(g, i, b) <==> LiveBlock(h, i, b);
  }

  lemma SameTwice(m: map<nat, nat>, v: map<nat, nat>, w: map<nat, nat>, lo: nat, n: nat)
    requires n > 0 && SameBut(m, v, lo, n) && SameBut(v, w, lo, 1)
    ensures SameBut(m, w, lo, n)
  {
  }

  lemma LiveOnce(h: Heap, ptr: nat, n: nat)
    requires Inv(h) && IsLive(h, ptr, n)
    ensures forall m :: IsLive(h, ptr, m) ==> m == n
  {
    hide IsLive, Lists, Pages;
    forall m | IsLive(h, ptr, m)
      ensures m == n
    {
      LiveDisjoint(h, ptr, n, ptr, m);
    }
  }

  /** size_t is 32 bits wide; past this size the rounding up to whole pages wraps around. */
  const MAX_REQUEST := 0x1_0000_0000 - PAGE_SIZE

  /** The rounding in kmalloc covers the request exactly up to MAX_REQUEST. */
  lemma RoundUpCovers(sz: nat)
    requires LARGEST_SUBPAGE_SIZE <= sz < 0x1_0000_0000
    ensures (sz + PAGE_SIZE - 1) % 0x1_0000_0000 / PAGE_SIZE * PAGE_SIZE >= sz <==> sz <= MAX_REQUEST
    ensures sz <= MAX_REQUEST ==> (sz + PAGE_SIZE - 1) % 0x1_0000_0000 / PAGE_SIZE == PagesFor(sz)
  {
  }

  lemma NothingAtZero(h: Heap)
    requires Inv(h)
    ensures forall n :: !IsLive(h, 0, n)
  {
    hide Lists, PageOf, TypeOf, Size, Offset, NBlocks;
  }

  lemma NotLiveAt(h: Heap, ptr: nat)
    requires Shape(h) && !exists n :: IsLive(h, ptr, n)
    ensures forall n :: !IsLive(h, ptr, n)
  {
  }

  lemma LostIs(h: Heap, g: Heap, r: nat)
    requires Shape(h) && Shape(g) && Lost(h, g, r)
    ensures forall a, m :: IsLive(g, a, m) <==> IsLive(h, a, m) && a != r
  {
    hide IsLive;
  }

  lemma LiveHeapNotBig(h: Heap, big: map<nat, nat>, ptr: nat, n: nat)
    requires Inv(h) && IsLive(h, ptr, n)
    requires forall a, i :: a in big && i in h.all && i < NPAGEREFS ==>
      Apart(a, big[a] * PAGE_SIZE, PageAddr(h.prs[i]), PAGE_SIZE)
    requires forall a :: a in big ==> big[a] > 0
    ensures ptr !in big
  {
    hide Lists, Pages, PageOf, TypeOf, Size, Offset, NBlocks;
    LiveInPage(h, ptr, n);
  }

  lemma GainedIs(h: Heap, g: Heap, r: nat, n: nat)
    requires Shape(h) && Shape(g) && Gained(h, g, r, n)
    ensures IsLive(g, r, n) && (forall m :: !IsLive(h, r, m))
      && forall a, m :: IsLive(g, a, m) <==> IsLive(h, a, m) || (a == r && m == n)
  {
    hide IsLive;
  }

  lemma LiveInPage(h: Heap, a: nat, n: nat)
    requires Inv(h) && IsLive(h, a, n)
    ensures exists i ::
      && i in h.all && 0 <= i < NPAGEREFS && n > 0
      && PageAddr(h.prs[i]) <= a && a + n <= PageAddr(h.prs[i]) + PAGE_SIZE
  {
    hide Lists, Pages, PageOf, TypeOf, Size, Offset, NBlocks;
    var i: nat, b: nat :| LiveBlock(h, i, b) && Addr(h, i, b) == a && Size(BlockType(h.prs[i])) == n;
    LiveInAll(h, i, b);
    OffsetFacts(BlockType(h.prs[i]), b);
  }

  /** The pages kmalloc asks for: enough for a large request, one for the subpage allocator. */
  function PagesFor(sz: nat): nat {
    if sz >= LARGEST_SUBPAGE_SIZE then (sz + PAGE_SIZE - 1) / PAGE_SIZE else 1
  }

  lemma PageDistinct(h: Heap, i: nat)
    requires Inv(h) && i in h.all && i < NPAGEREFS
    ensures PageAddr(h.prs[i]) > 0
    ensures forall j :: 0 <= j < NPAGEREFS && j in h.all && j != i ==> PageAddr(h.prs[j]) != PageAddr(h.prs[i])
  {
    hide Lists, FreeList, PageOf, TypeOf;
  }

  lemma FillKeeps(h: Heap, g: Heap)
    requires Shape(h) && g == h.(mem := g.mem)
    ensures Shape(g) && forall j, c :: LiveBlock(g, j, c) <==> LiveBlock(h, j, c)
  {
  }

  lemma OffsetBack(h: Heap, i: nat, b: nat)
    requires Shape(h) && LiveBlock(h, i, b)
    ensures BlockType(h.prs[i]) < NSIZES && Addr(h, i, b) - PageAddr(h.prs[i]) == Offset(BlockType(h.prs[i]), b)
    ensures Addr(h, i, b) - PageAddr(h.prs[i]) < PAGE_SIZE
    ensures (Addr(h, i, b) - PageAddr(h.prs[i])) % Size(BlockType(h.prs[i])) == 0
  {
    LiveInAll(h, i, b);
    OffsetFacts(BlockType(h.prs[i]), b);
  }

  lemma NotOnPage(h: Heap, ptr: nat)
    requires Inv(h) && forall i :: i in h.all ==>
      i < NPAGEREFS && !(PageAddr(h.prs[i]) <= ptr < PageAddr(h.prs[i]) + PAGE_SIZE)
    ensures forall n :: !IsLive(h, ptr, n)
  {
    hide Lists, Pages, Offset, Size, NBlocks, PageOf, TypeOf;
    forall n | IsLive(h, ptr, n)
      ensures false
    {
      var i: nat, b: nat :| LiveBlock(h, i, b) && Addr(h, i, b) == ptr && Size(BlockType(h.prs[i])) == n;
      LiveInAll(h, i, b);
      OffsetFacts(BlockType(h.prs[i]), b);
    }
  }

  /** The page found by address is the page of the block. */
  lemma LiveOn(h: Heap, ptr: nat, n: nat, pr: nat) returns (b: nat)
    requires Inv(h) && IsLive(h, ptr, n) && pr in h.all && pr < NPAGEREFS
      && PageAddr(h.prs[pr]) <= ptr < PageAddr(h.prs[pr]) + PAGE_SIZE
    ensures LiveBlock(h, pr, b) && BlockType(h.prs[pr]) < NSIZES && Addr(h, pr, b) == ptr
      && Size(BlockType(h.prs[pr])) == n > 0
  {
    hide Lists, Offset, Size, NBlocks;
    var i: nat, c: nat :| LiveBlock(h, i, c) && Addr(h, i, c) == ptr && Size(BlockType(h.prs[i])) == n;
    LiveInAll(h, i, c);
    OffsetFacts(BlockType(h.prs[i]), c);
    if i != pr {
      PagesApart(PageAddr(h.prs[i]), PageAddr(h.prs[pr]), h.prs[i].pab, h.prs[pr].pab);
    }
    b := c;
  }

  lemma UnlinkNext(h: Heap, i: nat, t: nat, ks: nat, ka: nat)
    requires Located(h, i, t, ks, ka)
    ensures UnlinkSame(h.prs, h.same[t], ks)[i].nextAll == h.prs[i].nextAll
  {
  }

  lemma FreeNotLive(h: Heap, i: nat)
    requires Inv(h) && i in h.all && i < NPAGEREFS && |h.free[i]| > 0
    ensures !LiveBlock(h, i, h.free[i][0])
  {
  }

  lemma AddrAligned(h: Heap, i: nat, b: nat)
    requires Inv(h) && i in h.all && i < NPAGEREFS && |h.free[i]| > 0 && b == h.free[i][0]
    ensures BlockType(h.prs[i]) < NSIZES && Addr(h, i, b) > 0 && Addr(h, i, b) % Size(BlockType(h.prs[i])) == 0
  {
    hide Lists, Pages, Offset, NBlocks, Size;
    FreeFacts(h, i);
    var t, p := BlockType(h.prs[i]), PageAddr(h.prs[i]);
    OffsetFacts(t, b);
    PageAligned(h.prs[i].pab, t);
    SumAligned(p, Offset(t, b), t);
  }

  lemma SumAligned(p: nat, o: nat, t: nat)
    requires t < NSIZES && p % PAGE_SIZE == 0 && o % Size(t) == 0
    ensures (p + o) % Size(t) == 0
  {
    var q, k := p / PAGE_SIZE, PAGE_SIZE / Size(t);
    assert p == q * k * Size(t) by {
      assert k * Size(t) == PAGE_SIZE;
    }
    ModMultiple(q * k, o, Size(t));
  }

  lemma ModMultiple(m: nat, o: nat, z: nat)
    requires z > 0 && o % z == 0
    ensures (m * z + o) % z == 0
  {
    var n := o / z;
    assert m * z + o == (m + n) * z;
    Multiple(m + n, z);
  }

  lemma PageAligned(pab: nat, t: nat)
    requires t < NSIZES
    ensures PageOf(pab) % Size(t) == 0
  {
    var q := pab / PAGE_SIZE;
    Multiple(q * (PAGE_SIZE / Size(t)), Size(t));
    assert q * PAGE_SIZE == q * (PAGE_SIZE / Size(t)) * Size(t) by {
      var z := Size(t);
      assert z == 16 || z == 32 || z == 64 || z == 128 || z == 256 || z == 512 || z == 1024 || z == 2048;
    }
  }

  lemma FreshPageFacts(h: Heap, i: nat, page: nat, t: nat, mem: map<nat, nat>)
    requires Inv(h) && i < NPAGEREFS && !InUse(h.inuse, i) && t < NSIZES && NewPage(h, page) && Tight(h)
    ensures Shape(AddPage(h, i, page, t, mem)) && i !in h.all
    ensures var g := AddPage(h, i, page, t, mem);
            i in g.all && BlockType(g.prs[i]) == t && g.prs[i].nfree == NBlocks(t) > 0 && PageAddr(g.prs[i]) == page
    ensures forall j :: 0 <= j < NPAGEREFS && j in h.all ==>
              j in AddPage(h, i, page, t, mem).all && AddPage(h, i, page, t, mem).prs[j].pab == h.prs[j].pab
    ensures forall j :: j in AddPage(h, i, page, t, mem).all && j != i ==>
              j < NPAGEREFS
              && |AddPage(h, i, page, t, mem).free[j]| < NBlocks(BlockType(AddPage(h, i, page, t, mem).prs[j]))
  {
    hide Lists, Pages, Offset, Size, NBlocks, PageOf, TypeOf, InUse, UseRef;
    AddPageShape(h, i, page, t, mem);
    Packed(page, t);
  }

  lemma OffsetZero(t: nat)
    requires t < NSIZES
    ensures Offset(t, 0) == 0
  {
  }

  /** A fresh page is apart from every free block of the heap. */
  lemma OthersUntouched(h: Heap, page: nat, mem: map<nat, nat>)
    requires Inv(h) && NewPage(h, page)
    requires SameBut(h.mem, mem, page, PAGE_SIZE)
    ensures forall j, k :: j in h.all && 0 <= k < |h.free[j]| ==> MemSame(h, h.(mem := mem), Addr(h, j, h.free[j][k]))
  {
    hide Lists, Offset, Size, NBlocks;
    forall j, k | j in h.all && 0 <= k < |h.free[j]|
      ensures MemSame(h, h.(mem := mem), Addr(h, j, h.free[j][k]))
    {
      assert FreeList(h, j) && Linked(h, j) && LinkAt(h, j, k);
      OffsetFacts(BlockType(h.prs[j]), h.free[j][k]);
      PagesApart(PageAddr(h.prs[j]), page, h.prs[j].pab, page);
    }
  }

  /** What the free list of a page says about its head. */
  lemma FreeFacts(h: Heap, i: nat)
    requires Inv(h) && i in h.all && i < NPAGEREFS
    ensures BlockType(h.prs[i]) < NSIZES && h.prs[i].nfree == |h.free[i]| && PageAddr(h.prs[i]) > 0
    ensures |h.free[i]| == 0 ==> h.prs[i].freelistOffset == INVALID_OFFSET
    ensures |h.free[i]| > 0 ==> h.prs[i].freelistOffset == Offset(BlockType(h.prs[i]), h.free[i][0]) < PAGE_SIZE
    ensures |h.free[i]| > 0 ==> LinkAt(h, i, 0)
    ensures |h.free[i]| > 1 ==> Addr(h, i, h.free[i][1]) > 0
  {
    hide Lists, Offset, Size, NBlocks, PageOf, TypeOf;
    assert FreeList(h, i) && Linked(h, i);
    if |h.free[i]| > 0 {
      assert LinkAt(h, i, 0);
      OffsetFacts(BlockType(h.prs[i]), h.free[i][0]);
    }
  }
}
