/** The kernel heap's subpage allocator (os161/kern/lib/kheap.c) as a value: page references in two intrusive lists, a
    bitmap of those in use, and a free list threaded through each page. */
module KheapModel {
  import opened Bits
  import opened Seqs

  const PAGE_SIZE := 4096
  const NSIZES := 8
  const NPAGEREFS := 256
  const INUSE_WORDS := 8
  const LARGEST_SUBPAGE_SIZE := 2048
  const INVALID_OFFSET := 0xffff
  /** The null page reference. */
  const NIL := 256

  /** The block size of each type. */
  function Size(t: nat): (r: nat)
    requires t < NSIZES
    ensures 16 <= r <= 2048
  {
    if t == 0 then 16 else if t == 1 then 32 else if t == 2 then 64 else if t == 3 then 128
    else if t == 4 then 256 else if t == 5 then 512 else if t == 6 then 1024 else 2048
  }

  function NBlocks(t: nat): (r: nat)
    requires t < NSIZES
    ensures 2 <= r <= 256
  {
    PAGE_SIZE / Size(t)
  }

  function Offset(t: nat, b: nat): nat
    requires t < NSIZES
  {
    b * Size(t)
  }

  /** Blocks of one type tile the page. */
  lemma OffsetFacts(t: nat, b: nat)
    requires t < NSIZES && b < NBlocks(t)
    ensures Offset(t, b) + Size(t) <= PAGE_SIZE && Offset(t, b) % Size(t) == 0 && Offset(t, b) / Size(t) == b
    ensures Offset(t, b) % 4 == 0 && Offset(t, b) < INVALID_OFFSET
  {
    var z := Size(t);
    Multiple(b, z);
    var w := z / 4;
    assert b * z == b * w * 4;
    Multiple(b * w, 4);
    Below(b, PAGE_SIZE / z, z);
  }

  lemma Multiple(n: nat, z: nat)
    requires z > 0
    ensures n * z % z == 0 && n * z / z == n
  {
    var q, r := n * z / z, n * z % z;
    var d := n - q;
    assert d * z == r;
    if d >= 0 {
      assert d * z >= 0;
    }
  }

  lemma Below(b: nat, n: nat, z: nat)
    requires b < n
    ensures b * z + z <= n * z
  {
    var d := n - (b + 1);
    assert (b + 1 + d) * z == b * z + z + d * z;
    assert d * z >= 0;
  }

  lemma OffsetOrder(t: nat, b: nat, c: nat)
    requires t < NSIZES && b < c
    ensures Offset(t, b) + Size(t) <= Offset(t, c)
  {
    var z := Size(t);
    assert c * z - b * z == (c - b) * z >= z;
  }

  /** `pab` packs the page address and the block type (MKPAB). */
  datatype PageRef = PageRef(nextSame: nat, nextAll: nat, pab: nat, freelistOffset: nat, nfree: nat)

  function PageOf(pab: nat): nat {
    pab / PAGE_SIZE * PAGE_SIZE
  }

  function TypeOf(pab: nat): nat {
    pab % PAGE_SIZE
  }

  function PageAddr(p: PageRef): nat {
    PageOf(p.pab)
  }

  function BlockType(p: PageRef): nat {
    TypeOf(p.pab)
  }

  /** `all`, `same` and `free` are the lists in order: all page references in use, those of each type, and the free
      blocks of each page by number. */
  datatype Heap = Heap(
    prs: seq<PageRef>,
    inuse: seq<nat>,
    sizebases: seq<nat>,
    allbase: nat,
    mem: map<nat, nat>,
    all: seq<nat>,
    same: seq<seq<nat>>,
    free: seq<seq<nat>>)

  function Addr(h: Heap, i: nat, b: nat): nat
    requires i < |h.prs| && BlockType(h.prs[i]) < NSIZES
  {
    PageAddr(h.prs[i]) + Offset(BlockType(h.prs[i]), b)
  }

  // ---------------------------------------------------------------- lists

  predicate Distinct(s: seq<nat>) {
    forall j, k :: 0 <= j < k < |s| ==> s[j] != s[k]
  }

  function Nth(order: seq<nat>, k: nat): nat {
    if k < |order| then order[k] else NIL
  }

  /** The intrusive list starting at `head` is `order`, through the next_samesize fields. */
  ghost predicate SameList(prs: seq<PageRef>, head: nat, order: seq<nat>) {
    && head == Nth(order, 0) && Distinct(order)
    && forall k :: 0 <= k < |order| ==> order[k] < |prs| && prs[order[k]].nextSame == Nth(order, k + 1)
  }

  /** Likewise through the next_all fields. */
  ghost predicate AllList(prs: seq<PageRef>, head: nat, order: seq<nat>) {
    && head == Nth(order, 0) && Distinct(order)
    && forall k :: 0 <= k < |order| ==> order[k] < |prs| && prs[order[k]].nextAll == Nth(order, k + 1)
  }

  predicate InUse(inuse: seq<nat>, i: nat)
    requires |inuse| == INUSE_WORDS && i < NPAGEREFS
  {
    Bit(inuse[i / 32], i % 32)
  }

  // ---------------------------------------------------------------- invariant

  ghost predicate Shape(h: Heap) {
    && |h.prs| == NPAGEREFS && |h.inuse| == INUSE_WORDS && |h.sizebases| == NSIZES && |h.same| == NSIZES
    && |h.free| == NPAGEREFS
    && Words32(h.inuse)
    && (forall k :: 0 <= k < |h.all| ==> h.all[k] < NPAGEREFS && BlockType(h.prs[h.all[k]]) < NSIZES)
  }

  /** allbase lists exactly the page references in use; the sizebases lists split it up by block type. */
  ghost predicate Lists(h: Heap)
    requires Shape(h)
  {
    && AllList(h.prs, h.allbase, h.all)
    && (forall t :: 0 <= t < NSIZES ==> SameList(h.prs, h.sizebases[t], h.same[t]))
    && (forall i :: 0 <= i < NPAGEREFS ==> (i in h.all <==> InUse(h.inuse, i)))
    && (forall t, i :: 0 <= t < NSIZES ==> OnList(h, t, i))
  }

  /** The list of type `t` has page reference `i` exactly when it is in use with that type. */
  ghost predicate OnList(h: Heap, t: nat, i: nat)
    requires Shape(h) && t < NSIZES
  {
    i in h.same[t] <==> i in h.all && i < NPAGEREFS && BlockType(h.prs[i]) == t
  }

  /** The free list of page `i`: distinct blocks of that page, linked in order through their first words, nfree long. */
  ghost predicate FreeList(h: Heap, i: nat)
    requires Shape(h) && i < NPAGEREFS && BlockType(h.prs[i]) < NSIZES
  {
    var p, f, t := h.prs[i], h.free[i], BlockType(h.prs[i]);
    && Distinct(f) && p.nfree == |f|
    && p.freelistOffset == (if f == [] then INVALID_OFFSET else Offset(t, f[0]))
    && Linked(h, i)
  }

  ghost predicate Linked(h: Heap, i: nat)
    requires Shape(h) && i < NPAGEREFS && BlockType(h.prs[i]) < NSIZES
  {
    forall k :: 0 <= k < |h.free[i]| ==> LinkAt(h, i, k)
  }

  /** The `k`th free block of page `i` is a block of the page, and its first word points to the next one. */
  ghost predicate LinkAt(h: Heap, i: nat, k: nat)
    requires Shape(h) && i < NPAGEREFS && BlockType(h.prs[i]) < NSIZES && k < |h.free[i]|
  {
    && h.free[i][k] < NBlocks(BlockType(h.prs[i]))
    && Addr(h, i, h.free[i][k]) in h.mem
    && h.mem[Addr(h, i, h.free[i][k])] == if k + 1 < |h.free[i]| then Addr(h, i, h.free[i][k + 1]) else 0
  }

  ghost predicate Pages(h: Heap)
    requires Shape(h)
  {
    && (forall i :: i in h.all ==> PageAddr(h.prs[i]) > 0 && FreeList(h, i))
    && (forall i, j :: i in h.all && j in h.all && i != j ==> PageAddr(h.prs[i]) != PageAddr(h.prs[j]))
  }

  ghost predicate Inv(h: Heap) {
    Shape(h) && Lists(h) && Pages(h)
  }

  /** No page is entirely free: such a page is given back at once. */
  ghost predicate Tight(h: Heap)
    requires Shape(h)
  {
    forall i :: i in h.all ==> i < NPAGEREFS && |h.free[i]| < NBlocks(BlockType(h.prs[i]))
  }

  // ---------------------------------------------------------------- live blocks

  /** Block `b` of page `i` is allocated. */
  ghost predicate LiveBlock(h: Heap, i: nat, b: nat)
    requires Shape(h)
  {
    i in h.all && i < NPAGEREFS && b < NBlocks(BlockType(h.prs[i])) && b !in h.free[i]
  }

  /** The allocated blocks: address to block size. */
  ghost predicate IsLive(h: Heap, a: nat, size: nat)
    requires Shape(h)
  {
    exists i: nat, b: nat :: LiveBlock(h, i, b) && Addr(h, i, b) == a && Size(BlockType(h.prs[i])) == size
  }

  /** Different blocks of the heap have different, disjoint memory. */
  lemma BlocksApart(h: Heap, i: nat, b: nat, j: nat, c: nat)
    requires Inv(h) && i in h.all && j in h.all && i < NPAGEREFS && j < NPAGEREFS
    requires b < NBlocks(BlockType(h.prs[i])) && c < NBlocks(BlockType(h.prs[j])) && (i != j || b != c)
    ensures Addr(h, i, b) + Size(BlockType(h.prs[i])) <= Addr(h, j, c)
      || Addr(h, j, c) + Size(BlockType(h.prs[j])) <= Addr(h, i, b)
  {
    hide FreeList, Lists, Offset, NBlocks, Size;
    OffsetFacts(BlockType(h.prs[i]), b);
    OffsetFacts(BlockType(h.prs[j]), c);
    if i == j {
      OffsetOrder(BlockType(h.prs[i]), if b < c then b else c, if b < c then c else b);
    } else {
      PagesApart(PageAddr(h.prs[i]), PageAddr(h.prs[j]), h.prs[i].pab, h.prs[j].pab);
    }
  }

  lemma PagesApart(a: nat, b: nat, pa: nat, pb: nat)
    requires a == pa / PAGE_SIZE * PAGE_SIZE && b == pb / PAGE_SIZE * PAGE_SIZE && a != b
    ensures a + PAGE_SIZE <= b || b + PAGE_SIZE <= a
  {
  }

  /** Live blocks never overlap and are aligned to their size within the page. */
  lemma LiveDisjoint(h: Heap, a: nat, n: nat, c: nat, m: nat)
    requires Inv(h) && IsLive(h, a, n) && IsLive(h, c, m)
    ensures a == c ==> n == m
    ensures a != c ==> a + n <= c || c + m <= a
  {
    hide Pages, Lists, Offset, NBlocks, Size, Addr;
    var i: nat, b: nat :| LiveBlock(h, i, b) && Addr(h, i, b) == a && Size(BlockType(h.prs[i])) == n;
    var j: nat, d: nat :| LiveBlock(h, j, d) && Addr(h, j, d) == c && Size(BlockType(h.prs[j])) == m;
    if i != j || b != d {
      BlocksApart(h, i, b, j, d);
    }
  }

  // ---------------------------------------------------------------- frames

  /** Page `j` and its free list look the same in both heaps. */
  ghost predicate SamePage(h: Heap, g: Heap, j: nat)
    requires Shape(h) && Shape(g) && j < NPAGEREFS
  {
    && g.prs[j].pab == h.prs[j].pab && g.prs[j].nfree == h.prs[j].nfree
    && g.prs[j].freelistOffset == h.prs[j].freelistOffset
    && g.free[j] == h.free[j]
  }

  ghost predicate MemSame(h: Heap, g: Heap, a: nat) {
    a in h.mem ==> a in g.mem && g.mem[a] == h.mem[a]
  }

  lemma SameFreeList(h: Heap, g: Heap, j: nat)
    requires Shape(h) && Shape(g) && j < NPAGEREFS && BlockType(h.prs[j]) < NSIZES && FreeList(h, j)
      && SamePage(h, g, j)
    requires forall k :: 0 <= k < |h.free[j]| ==> MemSame(h, g, Addr(h, j, h.free[j][k]))
    ensures FreeList(g, j)
  {
    hide Offset, NBlocks, Size, PageOf, TypeOf, Distinct;
    assert Linked(h, j);
    forall k | 0 <= k < |g.free[j]|
      ensures LinkAt(g, j, k)
    {
      assert LinkAt(h, j, k);
      assert Addr(g, j, g.free[j][k]) == Addr(h, j, h.free[j][k]);
      assert MemSame(h, g, Addr(h, j, h.free[j][k]));
    }
  }

  /** The lists depend only on the links and the types. */
  lemma ListsSame(h: Heap, g: Heap)
    requires Shape(h) && Lists(h) && Shape(g)
    requires g.all == h.all && g.same == h.same && g.allbase == h.allbase && g.sizebases == h.sizebases
      && g.inuse == h.inuse
    requires forall j :: 0 <= j < NPAGEREFS ==>
               g.prs[j].nextSame == h.prs[j].nextSame && g.prs[j].nextAll == h.prs[j].nextAll
                 && g.prs[j].pab == h.prs[j].pab
    ensures Lists(g)
  {
    hide InUse, TypeOf, Distinct, Nth;
    forall t | 0 <= t < NSIZES
      ensures SameList(g.prs, g.sizebases[t], g.same[t])
    {
      assert SameList(h.prs, h.sizebases[t], h.same[t]);
    }
    forall t, i | 0 <= t < NSIZES
      ensures OnList(g, t, i)
    {
      assert OnList(h, t, i);
    }
  }

  // ---------------------------------------------------------------- taking a block off a page

  ghost function Pop(h: Heap, i: nat): Heap
    requires Shape(h) && i in h.all && i < NPAGEREFS && |h.free[i]| > 0 && h.prs[i].nfree > 0
      && BlockType(h.prs[i]) < NSIZES
  {
    var f := h.free[i];
    h.(prs := h.prs[i := h.prs[i].(nfree := h.prs[i].nfree - 1,
                                   freelistOffset := if |f| > 1 then Offset(BlockType(h.prs[i]), f[1])
                                     else INVALID_OFFSET)],
       free := h.free[i := f[1..]])
  }

  lemma PopLists(h: Heap, i: nat)
    requires Inv(h) && i in h.all && i < NPAGEREFS && |h.free[i]| > 0 && h.prs[i].nfree > 0
      && BlockType(h.prs[i]) < NSIZES
    ensures Shape(Pop(h, i)) && Lists(Pop(h, i))
  {
    hide Pages, Offset, NBlocks, Size, InUse, PageOf, TypeOf, Lists;
    var g := Pop(h, i);
    ListsSame(h, g);
  }

  lemma PopPages(h: Heap, i: nat)
    requires Inv(h) && i in h.all && i < NPAGEREFS && |h.free[i]| > 0 && h.prs[i].nfree > 0
      && BlockType(h.prs[i]) < NSIZES
    ensures Shape(Pop(h, i)) && Pages(Pop(h, i))
  {
    hide Lists, Offset, NBlocks, Size, PageOf, TypeOf;
    var g := Pop(h, i);
    PopLists(h, i);
    assert FreeList(h, i) && Linked(h, i);
    forall j | j in g.all
      ensures FreeList(g, j)
    {
      if j != i {
        assert FreeList(h, j) && Linked(h, j);
        SameFreeList(h, g, j);
      } else {
        forall k | 0 <= k < |g.free[i]|
          ensures LinkAt(g, i, k)
        {
          assert LinkAt(h, i, k + 1);
          assert Addr(g, i, g.free[i][k]) == Addr(h, i, h.free[i][k + 1]);
        }
      }
    }
  }

  /** Taking the first free block of a page makes exactly that block live. */
  lemma PopKeeps(h: Heap, i: nat)
    requires Inv(h) && i in h.all && i < NPAGEREFS && |h.free[i]| > 0
    ensures BlockType(h.prs[i]) < NSIZES && h.prs[i].nfree > 0 && Inv(Pop(h, i))
    ensures forall j, b :: LiveBlock(Pop(h, i), j, b) <==> LiveBlock(h, j, b) || (j == i && b == h.free[i][0])
  {
    hide Offset, NBlocks, Size, PageOf, TypeOf, Lists;
    assert FreeList(h, i) && Linked(h, i);
    PopLists(h, i);
    PopPages(h, i);
    assert LinkAt(h, i, 0);
    var f := h.free[i];
    assert f == [f[0]] + f[1..];
  }

  // ---------------------------------------------------------------- putting a block back

  ghost function Push(h: Heap, i: nat, b: nat): Heap
    requires Shape(h) && LiveBlock(h, i, b)
  {
    var f := h.free[i];
    h.(prs := h.prs[i := h.prs[i].(nfree := h.prs[i].nfree + 1, freelistOffset := Offset(BlockType(h.prs[i]), b))],
       mem := h.mem[Addr(h, i, b) := if |f| > 0 then Addr(h, i, f[0]) else 0],
       free := h.free[i := [b] + f])
  }

  lemma PushLists(h: Heap, i: nat, b: nat)
    requires Inv(h) && LiveBlock(h, i, b)
    ensures Shape(Push(h, i, b)) && Lists(Push(h, i, b))
  {
    hide Pages, Offset, NBlocks, Size, InUse, PageOf, TypeOf, Lists;
    var g := Push(h, i, b);
    ListsSame(h, g);
  }

  lemma PushPages(h: Heap, i: nat, b: nat)
    requires Inv(h) && LiveBlock(h, i, b)
    ensures Shape(Push(h, i, b)) && Pages(Push(h, i, b))
  {
    hide Lists, Offset, NBlocks, Size, PageOf, TypeOf;
    var g := Push(h, i, b);
    PushLists(h, i, b);
    assert FreeList(h, i) && Linked(h, i);
    forall j, k | j in h.all && j < NPAGEREFS && 0 <= k < |h.free[j]|
      ensures Addr(h, j, h.free[j][k]) != Addr(h, i, b)
    {
      assert FreeList(h, j) && Linked(h, j) && LinkAt(h, j, k);
      BlocksApart(h, j, h.free[j][k], i, b);
    }
    forall j | j in g.all
      ensures FreeList(g, j)
    {
      if j != i {
        assert FreeList(h, j) && Linked(h, j);
        SameFreeList(h, g, j);
      } else {
        PushLinked(h, i, b);
      }
    }
  }

  lemma PushLinked(h: Heap, i: nat, b: nat)
    requires Inv(h) && LiveBlock(h, i, b) && Shape(Push(h, i, b))
    requires forall k :: 0 <= k < |h.free[i]| ==> Addr(h, i, h.free[i][k]) != Addr(h, i, b)
    ensures Linked(Push(h, i, b), i)
  {
    hide Lists, Offset, NBlocks, Size, PageOf, TypeOf;
    var g := Push(h, i, b);
    assert FreeList(h, i) && Linked(h, i);
    forall k | 0 <= k < |g.free[i]|
      ensures LinkAt(g, i, k)
    {
      assert Addr(g, i, b) == Addr(h, i, b);
      if k > 0 {
        assert LinkAt(h, i, k - 1);
        assert g.free[i][k] == h.free[i][k - 1];
        assert Addr(g, i, g.free[i][k]) == Addr(h, i, h.free[i][k - 1]);
      }
    }
  }

  /** Putting a live block back makes exactly that block free. */
  lemma PushKeeps(h: Heap, i: nat, b: nat)
    requires Inv(h) && LiveBlock(h, i, b)
    ensures Inv(Push(h, i, b))
    ensures forall j, c :: LiveBlock(Push(h, i, b), j, c) <==> LiveBlock(h, j, c) && (j != i || c != b)
  {
    hide Offset, NBlocks, Size, PageOf, TypeOf, Lists, Pages;
    PushLists(h, i, b);
    PushPages(h, i, b);
  }

  // ---------------------------------------------------------------- page references in use

  function UseRef(inuse: seq<nat>, i: nat): (r: seq<nat>)
    requires |inuse| == INUSE_WORDS && i < NPAGEREFS
    ensures |r| == INUSE_WORDS
  {
    inuse[i / 32 := Set(inuse[i / 32], i % 32)]
  }

  function UnuseRef(inuse: seq<nat>, i: nat): (r: seq<nat>)
    requires |inuse| == INUSE_WORDS && i < NPAGEREFS
    ensures |r| == INUSE_WORDS
  {
    inuse[i / 32 := Clear(inuse[i / 32], i % 32)]
  }

  ghost predicate Words32(inuse: seq<nat>) {
    forall w :: 0 <= w < |inuse| ==> inuse[w] < 0x1_0000_0000
  }

  lemma UseRefBits(inuse: seq<nat>, i: nat)
    requires |inuse| == INUSE_WORDS && i < NPAGEREFS && Words32(inuse)
    ensures Words32(UseRef(inuse, i)) && Words32(UnuseRef(inuse, i))
    ensures forall j :: 0 <= j < NPAGEREFS ==> (InUse(UseRef(inuse, i), j) <==> j == i || InUse(inuse, j))
    ensures forall j :: 0 <= j < NPAGEREFS ==> (InUse(UnuseRef(inuse, i), j) <==> j != i && InUse(inuse, j))
  {
    hide Bit, Set, Clear;
    PowWord();
    SetBounded(inuse[i / 32], i % 32, 32);
    ClearBounded(inuse[i / 32], i % 32, 32);
    forall j | 0 <= j < NPAGEREFS
      ensures InUse(UseRef(inuse, i), j) <==> j == i || InUse(inuse, j)
      ensures InUse(UnuseRef(inuse, i), j) <==> j != i && InUse(inuse, j)
    {
      SetBits(inuse[i / 32], i % 32, j % 32);
      ClearBits(inuse[i / 32], i % 32, j % 32);
    }
  }

  lemma PowWord()
    ensures Pow2(32) == 0x1_0000_0000
  {
    assert Pow2(8) == 0x100;
    assert Pow2(16) == 0x1_0000;
    assert Pow2(24) == 0x100_0000;
  }

  // ---------------------------------------------------------------- a fresh page

  /** The block numbers of a fresh free list: last block first. */
  function Down(n: nat): (r: seq<nat>)
    ensures |r| == n && forall k :: 0 <= k < n ==> r[k] == n - 1 - k
  {
    seq(n, k requires 0 <= k < n => n - 1 - k)
  }

  /** The words of a fresh page: each block points to the one before it. */
  ghost predicate Threaded(mem: map<nat, nat>, page: nat, t: nat)
    requires t < NSIZES
  {
    forall b :: 0 <= b < NBlocks(t) ==>
      page + Offset(t, b) in mem && mem[page + Offset(t, b)] == if b > 0 then page + Offset(t, b - 1) else 0
  }

  ghost function AddPage(h: Heap, i: nat, page: nat, t: nat, mem: map<nat, nat>): Heap
    requires Shape(h) && i < NPAGEREFS && t < NSIZES
  {
    h.(prs := h.prs[i := PageRef(h.sizebases[t], h.allbase, page + t, Offset(t, NBlocks(t) - 1), NBlocks(t))],
       inuse := UseRef(h.inuse, i),
       sizebases := h.sizebases[t := i],
       allbase := i,
       mem := mem,
       all := [i] + h.all,
       same := h.same[t := [i] + h.same[t]],
       free := h.free[i := Down(NBlocks(t))])
  }

  /** A page the heap does not have yet. */
  ghost predicate NewPage(h: Heap, page: nat)
    requires Shape(h)
  {
    page > 0 && page % PAGE_SIZE == 0 && forall j :: j in h.all && j < NPAGEREFS ==> PageAddr(h.prs[j]) != page
  }

  lemma Packed(page: nat, t: nat)
    requires page % PAGE_SIZE == 0 && t < NSIZES
    ensures PageOf(page + t) == page && TypeOf(page + t) == t
  {
  }

  lemma InAllIff(h: Heap, i: nat)
    requires Inv(h) && i < NPAGEREFS
    ensures i in h.all <==> InUse(h.inuse, i)
  {
    hide Pages, InUse, AllList, SameList;
  }

  lemma AddPageShape(h: Heap, i: nat, page: nat, t: nat, mem: map<nat, nat>)
    requires Inv(h) && i < NPAGEREFS && !InUse(h.inuse, i) && t < NSIZES && NewPage(h, page)
    ensures Shape(AddPage(h, i, page, t, mem)) && i !in h.all && BlockType(AddPage(h, i, page, t, mem).prs[i]) == t
  {
    hide Pages, Lists, Offset, NBlocks, Size, InUse, PageOf, TypeOf, UseRef, Words32, NewPage;
    InAllIff(h, i);
    UseRefBits(h.inuse, i);
    assert page % PAGE_SIZE == 0 by {
      NewPageAligned(h, page);
    }
    Packed(page, t);
    var g := AddPage(h, i, page, t, mem);
    forall k | 0 <= k < |g.all|
      ensures g.all[k] < NPAGEREFS && BlockType(g.prs[g.all[k]]) < NSIZES
    {
      if k > 0 {
        assert h.all[k - 1] in h.all;
      }
    }
  }

  lemma NewPageAligned(h: Heap, page: nat)
    requires Shape(h) && NewPage(h, page)
    ensures page % PAGE_SIZE == 0
  {
  }

  lemma ConsAll(prs: seq<PageRef>, q: seq<PageRef>, head: nat, order: seq<nat>, i: nat)
    requires AllList(prs, head, order) && |q| == |prs| && i < |prs| && i !in order
    requires q[i].nextAll == head && forall k :: 0 <= k < |order| ==> q[order[k]].nextAll == prs[order[k]].nextAll
    ensures AllList(q, i, [i] + order)
  {
  }

  lemma ConsSame(prs: seq<PageRef>, q: seq<PageRef>, head: nat, order: seq<nat>, i: nat)
    requires SameList(prs, head, order) && |q| == |prs| && i < |prs| && i !in order
    requires q[i].nextSame == head && forall k :: 0 <= k < |order| ==> q[order[k]].nextSame == prs[order[k]].nextSame
    ensures SameList(q, i, [i] + order)
  {
  }

  lemma AddPageLists(h: Heap, i: nat, page: nat, t: nat, mem: map<nat, nat>)
    requires Inv(h) && i < NPAGEREFS && !InUse(h.inuse, i) && t < NSIZES && NewPage(h, page)
    ensures Shape(AddPage(h, i, page, t, mem)) && Lists(AddPage(h, i, page, t, mem))
  {
    hide Pages, Offset, NBlocks, Size, InUse, PageOf, TypeOf, UseRef, Distinct, Nth;
    var g := AddPage(h, i, page, t, mem);
    AddPageShape(h, i, page, t, mem);
    UseRefBits(h.inuse, i);
    ConsAll(h.prs, g.prs, h.allbase, h.all, i);
    assert SameList(h.prs, h.sizebases[t], h.same[t]);
    forall u, k | 0 <= u < NSIZES && 0 <= k < |h.same[u]|
      ensures h.same[u][k] in h.all && h.same[u][k] != i
    {
      assert OnList(h, u, h.same[u][k]) && h.same[u][k] in h.same[u];
    }
    assert OnList(h, t, i) && i !in h.same[t];
    ConsSame(h.prs, g.prs, h.sizebases[t], h.same[t], i);
    forall u | 0 <= u < NSIZES && u != t
      ensures SameList(g.prs, g.sizebases[u], g.same[u])
    {
      assert SameList(h.prs, h.sizebases[u], h.same[u]);
    }
    AddPageMembers(h, i, page, t, mem);
  }

  lemma AddPageMembers(h: Heap, i: nat, page: nat, t: nat, mem: map<nat, nat>)
    requires Inv(h) && i < NPAGEREFS && i !in h.all && t < NSIZES && Shape(AddPage(h, i, page, t, mem))
    requires BlockType(AddPage(h, i, page, t, mem).prs[i]) == t
    ensures forall u, j :: 0 <= u < NSIZES ==> OnList(AddPage(h, i, page, t, mem), u, j)
  {
    hide Pages, Offset, NBlocks, Size, InUse, PageOf, TypeOf, UseRef, AllList, SameList;
    var g := AddPage(h, i, page, t, mem);
    forall u, j | 0 <= u < NSIZES
      ensures OnList(g, u, j)
    {
      assert OnList(h, u, j);
      assert j in g.all <==> j == i || j in h.all;
      assert j in g.same[u] <==> (u == t && j == i) || j in h.same[u];
    }
  }

  lemma AddPagePages(h: Heap, i: nat, page: nat, t: nat, mem: map<nat, nat>)
    requires Inv(h) && i < NPAGEREFS && !InUse(h.inuse, i) && t < NSIZES && NewPage(h, page) && Threaded(mem, page, t)
    requires forall j, k :: j in h.all && 0 <= k < |h.free[j]| ==> MemSame(h, h.(mem := mem), Addr(h, j, h.free[j][k]))
    ensures Shape(AddPage(h, i, page, t, mem)) && Pages(AddPage(h, i, page, t, mem))
  {
    hide Lists, Offset, NBlocks, Size, InUse, PageOf, TypeOf, UseRef, Distinct;
    var g := AddPage(h, i, page, t, mem);
    AddPageShape(h, i, page, t, mem);
    Packed(page, t);
    forall j | j in g.all
      ensures PageAddr(g.prs[j]) > 0 && FreeList(g, j)
    {
      if j != i {
        assert FreeList(h, j);
        forall k | 0 <= k < |h.free[j]|
          ensures MemSame(h, g, Addr(h, j, h.free[j][k]))
        {
          assert MemSame(h, h.(mem := mem), Addr(h, j, h.free[j][k]));
        }
        SameFreeList(h, g, j);
      } else {
        FreshFreeList(g, i, page, t);
      }
    }
  }

  lemma FreshFreeList(g: Heap, i: nat, page: nat, t: nat)
    requires Shape(g) && i < NPAGEREFS && t < NSIZES && PageAddr(g.prs[i]) == page && BlockType(g.prs[i]) == t
    requires g.free[i] == Down(NBlocks(t)) && g.prs[i].nfree == NBlocks(t)
      && g.prs[i].freelistOffset == Offset(t, NBlocks(t) - 1)
    requires Threaded(g.mem, page, t)
    ensures FreeList(g, i)
  {
    hide Offset, NBlocks, Size, PageOf, TypeOf;
    forall k | 0 <= k < |g.free[i]|
      ensures LinkAt(g, i, k)
    {
      var b := NBlocks(t) - 1 - k;
      assert g.free[i][k] == b && Addr(g, i, b) == page + Offset(t, b);
      assert page + Offset(t, b) in g.mem;
      if k + 1 < |g.free[i]| {
        assert g.free[i][k + 1] == b - 1 && Addr(g, i, b - 1) == page + Offset(t, b - 1);
      } else {
        assert b == 0;
      }
      assert g.mem[Addr(g, i, g.free[i][k])] == if k + 1 < |g.free[i]| then Addr(g, i, g.free[i][k + 1]) else 0;
    }
  }

  /** A fresh page joins the heap with all its blocks free; nothing becomes live. */
  lemma AddPageKeeps(h: Heap, i: nat, page: nat, t: nat, mem: map<nat, nat>)
    requires Inv(h) && i < NPAGEREFS && !InUse(h.inuse, i) && t < NSIZES && NewPage(h, page) && Threaded(mem, page, t)
    requires forall j, k :: j in h.all && 0 <= k < |h.free[j]| ==> MemSame(h, h.(mem := mem), Addr(h, j, h.free[j][k]))
    ensures Inv(AddPage(h, i, page, t, mem)) && i !in h.all
    ensures forall j, b :: LiveBlock(AddPage(h, i, page, t, mem), j, b) <==> LiveBlock(h, j, b)
  {
    hide Offset, NBlocks, Size, InUse, PageOf, TypeOf, UseRef, Distinct, Lists, Pages;
    AddPageShape(h, i, page, t, mem);
    AddPageLists(h, i, page, t, mem);
    AddPagePages(h, i, page, t, mem);
    var g := AddPage(h, i, page, t, mem);
    forall j: nat, b: nat
      ensures LiveBlock(g, j, b) <==> LiveBlock(h, j, b)
    {
      if j == i && b < NBlocks(t) {
        assert g.free[i][NBlocks(t) - 1 - b] == b;
      }
    }
  }

  // ---------------------------------------------------------------- giving a page back

  lemma WithoutMembers(s: seq<nat>, k: nat)
    requires k < |s| && Distinct(s)
    ensures Distinct(Without(s, k)) && forall x :: x in Without(s, k) <==> x in s && x != s[k]
  {
    forall x
      ensures x in Without(s, k) <==> x in s && x != s[k]
    {
      if x in s && x != s[k] {
        var j :| 0 <= j < |s| && s[j] == x;
        assert Without(s, k)[if j < k then j else j - 1] == x;
      }
    }
  }

  /** The page references after the `k`th of `order` is taken out of the list through next_all. */
  function UnlinkAll(prs: seq<PageRef>, order: seq<nat>, k: nat): (q: seq<PageRef>)
    requires k < |order| && forall j :: 0 <= j < |order| ==> order[j] < |prs|
    ensures |q| == |prs|
  {
    if k == 0 then prs else prs[order[k - 1] := prs[order[k - 1]].(nextAll := prs[order[k]].nextAll)]
  }

  function UnlinkSame(prs: seq<PageRef>, order: seq<nat>, k: nat): (q: seq<PageRef>)
    requires k < |order| && forall j :: 0 <= j < |order| ==> order[j] < |prs|
    ensures |q| == |prs|
  {
    if k == 0 then prs else prs[order[k - 1] := prs[order[k - 1]].(nextSame := prs[order[k]].nextSame)]
  }

  lemma UnlinkAllKeeps(prs: seq<PageRef>, head: nat, order: seq<nat>, k: nat)
    requires AllList(prs, head, order) && k < |order|
    ensures AllList(UnlinkAll(prs, order, k), if k == 0 then prs[order[0]].nextAll else head, Without(order, k))
  {
    WithoutMembers(order, k);
    WithoutAt(order, k);
    hide Without;
  }

  lemma UnlinkSameKeeps(prs: seq<PageRef>, head: nat, order: seq<nat>, k: nat)
    requires SameList(prs, head, order) && k < |order|
    ensures SameList(UnlinkSame(prs, order, k), if k == 0 then prs[order[0]].nextSame else head, Without(order, k))
  {
    WithoutMembers(order, k);
    WithoutAt(order, k);
    hide Without;
  }

  ghost predicate Located(h: Heap, i: nat, t: nat, ks: nat, ka: nat) {
    && Shape(h) && i < NPAGEREFS && t < NSIZES && BlockType(h.prs[i]) == t
    && ks < |h.same[t]| && h.same[t][ks] == i && ka < |h.all| && h.all[ka] == i
    && (forall j :: 0 <= j < |h.same[t]| ==> h.same[t][j] < NPAGEREFS)
  }

  /** remove_lists and freepageref: the page reference leaves both lists and the bitmap. */
  ghost function RemovePage(h: Heap, i: nat, t: nat, ks: nat, ka: nat): Heap
    requires Located(h, i, t, ks, ka)
  {
    h.(prs := UnlinkAll(UnlinkSame(h.prs, h.same[t], ks), h.all, ka),
       sizebases := if ks == 0 then h.sizebases[t := h.prs[i].nextSame] else h.sizebases,
       allbase := if ka == 0 then h.prs[i].nextAll else h.allbase,
       inuse := UnuseRef(h.inuse, i),
       all := Without(h.all, ka),
       same := h.same[t := Without(h.same[t], ks)])
  }

  /** Only links change. */
  lemma RemovePagePrs(h: Heap, i: nat, t: nat, ks: nat, ka: nat)
    requires Located(h, i, t, ks, ka)
    ensures forall j :: 0 <= j < NPAGEREFS ==>
              RemovePage(h, i, t, ks, ka).prs[j].(nextSame := 0, nextAll := 0) == h.prs[j].(nextSame := 0, nextAll := 0)
    ensures forall j :: 0 <= j < NPAGEREFS ==>
              RemovePage(h, i, t, ks, ka).prs[j].nextSame == UnlinkSame(h.prs, h.same[t], ks)[j].nextSame
    ensures forall j :: 0 <= j < NPAGEREFS ==> UnlinkSame(h.prs, h.same[t], ks)[j].nextAll == h.prs[j].nextAll
  {
    hide TypeOf, UnuseRef, Without;
  }

  lemma RemovePageShape(h: Heap, i: nat, t: nat, ks: nat, ka: nat)
    requires Inv(h) && Located(h, i, t, ks, ka)
    ensures Shape(RemovePage(h, i, t, ks, ka))
  {
    hide Pages, Lists, TypeOf, UnuseRef, Words32, UnlinkAll, UnlinkSame;
    UseRefBits(h.inuse, i);
    RemovePagePrs(h, i, t, ks, ka);
    var g := RemovePage(h, i, t, ks, ka);
    forall k | 0 <= k < |g.all|
      ensures g.all[k] < NPAGEREFS && BlockType(g.prs[g.all[k]]) < NSIZES
    {
      assert g.all[k] == h.all[if k < ka then k else k + 1];
    }
  }

  lemma RemovePageOnLists(h: Heap, i: nat, t: nat, ks: nat, ka: nat)
    requires Inv(h) && Located(h, i, t, ks, ka) && Shape(RemovePage(h, i, t, ks, ka))
    ensures forall u, j :: 0 <= u < NSIZES ==> OnList(RemovePage(h, i, t, ks, ka), u, j)
    ensures forall j :: j in RemovePage(h, i, t, ks, ka).all <==> j in h.all && j != i
  {
    hide Pages, TypeOf, UnuseRef, UnlinkAll, UnlinkSame, Without, InUse;
    var g := RemovePage(h, i, t, ks, ka);
    RemovePagePrs(h, i, t, ks, ka);
    assert AllList(h.prs, h.allbase, h.all) && SameList(h.prs, h.sizebases[t], h.same[t]);
    WithoutMembers(h.all, ka);
    WithoutMembers(h.same[t], ks);
    forall u, j | 0 <= u < NSIZES
      ensures OnList(g, u, j)
    {
      assert OnList(h, u, j);
    }
  }

  lemma RemovePageLists(h: Heap, i: nat, t: nat, ks: nat, ka: nat)
    requires Inv(h) && Located(h, i, t, ks, ka)
    ensures Shape(RemovePage(h, i, t, ks, ka)) && Lists(RemovePage(h, i, t, ks, ka))
  {
    hide Pages, TypeOf, UnuseRef, Without, InUse, Distinct, Nth;
    var g := RemovePage(h, i, t, ks, ka);
    RemovePageShape(h, i, t, ks, ka);
    RemovePageOnLists(h, i, t, ks, ka);
    UseRefBits(h.inuse, i);
    RemovePagePrs(h, i, t, ks, ka);
    assert AllList(h.prs, h.allbase, h.all) && SameList(h.prs, h.sizebases[t], h.same[t]);
    var q := UnlinkSame(h.prs, h.same[t], ks);
    assert AllList(q, h.allbase, h.all);
    UnlinkAllKeeps(q, h.allbase, h.all, ka);
    assert AllList(g.prs, g.allbase, g.all);
    UnlinkSameKeeps(h.prs, h.sizebases[t], h.same[t], ks);
    assert SameList(q, g.sizebases[t], g.same[t]);
    assert SameList(g.prs, g.sizebases[t], g.same[t]);
    forall u | 0 <= u < NSIZES && u != t
      ensures SameList(g.prs, g.sizebases[u], g.same[u])
    {
      RemoveOther(h, i, t, ks, ka, u);
    }
  }

  /** The lists of the other types do not change. */
  lemma RemoveOther(h: Heap, i: nat, t: nat, ks: nat, ka: nat, u: nat)
    requires Inv(h) && Located(h, i, t, ks, ka) && u < NSIZES && u != t
    ensures SameList(RemovePage(h, i, t, ks, ka).prs, h.sizebases[u], h.same[u])
  {
    hide Pages, TypeOf, UnuseRef, Without, InUse, Distinct, Nth, UnlinkAll;
    RemovePagePrs(h, i, t, ks, ka);
    assert SameList(h.prs, h.sizebases[u], h.same[u]);
    var q := UnlinkSame(h.prs, h.same[t], ks);
    forall k | 0 <= k < |h.same[u]|
      ensures q[h.same[u][k]].nextSame == h.prs[h.same[u][k]].nextSame
    {
      var j := h.same[u][k];
      assert OnList(h, u, j) && j in h.same[u];
      if ks > 0 {
        assert OnList(h, t, h.same[t][ks - 1]) && h.same[t][ks - 1] in h.same[t];
      }
    }
  }

  lemma RemovePagePages(h: Heap, i: nat, t: nat, ks: nat, ka: nat)
    requires Inv(h) && Located(h, i, t, ks, ka)
    ensures Shape(RemovePage(h, i, t, ks, ka)) && Pages(RemovePage(h, i, t, ks, ka))
  {
    hide Lists, TypeOf, PageOf, UnuseRef, Without, InUse, Distinct, Nth, UnlinkAll, UnlinkSame, NBlocks, Offset, Size;
    var g := RemovePage(h, i, t, ks, ka);
    RemovePageShape(h, i, t, ks, ka);
    RemovePageOnLists(h, i, t, ks, ka);
    RemovePagePrs(h, i, t, ks, ka);
    forall j | j in g.all
      ensures PageAddr(g.prs[j]) > 0 && FreeList(g, j)
    {
      assert FreeList(h, j);
      assert g.prs[j].(nextSame := 0, nextAll := 0) == h.prs[j].(nextSame := 0, nextAll := 0);
      SameFreeList(h, g, j);
    }
    forall j, k | j in g.all && k in g.all && j != k
      ensures PageAddr(g.prs[j]) != PageAddr(g.prs[k])
    {
      assert g.prs[j].(nextSame := 0, nextAll := 0) == h.prs[j].(nextSame := 0, nextAll := 0);
      assert g.prs[k].(nextSame := 0, nextAll := 0) == h.prs[k].(nextSame := 0, nextAll := 0);
    }
  }

  /** Giving a page back keeps the invariant, and if the page was entirely free no block stops being live. */
  lemma RemovePageKeeps(h: Heap, i: nat, t: nat, ks: nat, ka: nat)
    requires Inv(h) && Located(h, i, t, ks, ka)
    ensures Inv(RemovePage(h, i, t, ks, ka))
    ensures forall j, b :: LiveBlock(RemovePage(h, i, t, ks, ka), j, b) <==> LiveBlock(h, j, b) && j != i
    ensures forall j :: j in RemovePage(h, i, t, ks, ka).all <==> j in h.all && j != i
  {
    hide Lists, Pages, TypeOf, PageOf, UnuseRef, Without, InUse, UnlinkAll, UnlinkSame, NBlocks, Offset, Size;
    var g := RemovePage(h, i, t, ks, ka);
    RemovePageLists(h, i, t, ks, ka);
    RemovePagePages(h, i, t, ks, ka);
    RemovePageOnLists(h, i, t, ks, ka);
    RemovePagePrs(h, i, t, ks, ka);
    forall j: nat, b: nat
      ensures LiveBlock(g, j, b) <==> LiveBlock(h, j, b) && j != i
    {
      if j < NPAGEREFS {
        assert g.prs[j].(nextSame := 0, nextAll := 0) == h.prs[j].(nextSame := 0, nextAll := 0);
      }
    }
  }

  // ---------------------------------------------------------------- counting free blocks

  ghost function Range(n: nat): (r: set<nat>)
    ensures |r| == n && forall b :: b in r <==> 0 <= b < n
  {
    if n == 0 then {} else Range(n - 1) + {n - 1}
  }

  ghost function Elements(s: seq<nat>): (r: set<nat>)
    ensures forall x :: x in r <==> x in s
  {
    set x | x in s
  }

  /** Distinct numbers below `n` are at most `n` many, and if `n` many, all of them. */
  lemma AtMost(s: seq<nat>, n: nat)
    requires Distinct(s) && forall k :: 0 <= k < |s| ==> s[k] < n
    ensures |s| <= n
    ensures |s| == n ==> forall b :: 0 <= b < n ==> b in s
  {
    DistinctSize(s);
    assert Elements(s) <= Range(n);
    SubsetSize(Elements(s), Range(n));
    if |s| == n {
      forall b | 0 <= b < n
        ensures b in s
      {
        assert b in Range(n);
      }
    }
  }

  lemma {:induction false} DistinctSize(s: seq<nat>)
    requires Distinct(s)
    ensures |Elements(s)| == |s|
  {
    if s != [] {
      var m := |s| - 1;
      DistinctSize(s[..m]);
      assert s == s[..m] + [s[m]];
      assert Elements(s) == Elements(s[..m]) + {s[m]};
    } else {
      assert Elements(s) == {};
    }
  }

  /** nfree never exceeds the number of blocks, and reaches it exactly when no block of the page is live. */
  lemma FreeCount(h: Heap, i: nat)
    requires Inv(h) && i in h.all && i < NPAGEREFS
    ensures |h.free[i]| == h.prs[i].nfree <= NBlocks(BlockType(h.prs[i]))
    ensures h.prs[i].nfree == NBlocks(BlockType(h.prs[i])) <==> forall b :: !LiveBlock(h, i, b)
  {
    hide Lists, Offset, Size, PageOf, TypeOf, Distinct, NBlocks;
    assert FreeList(h, i) && Linked(h, i);
    var n := NBlocks(BlockType(h.prs[i]));
    forall k | 0 <= k < |h.free[i]|
      ensures h.free[i][k] < n
    {
      assert LinkAt(h, i, k);
    }
    AtMost(h.free[i], n);
    if |h.free[i]| < n {
      var b := Missing(h.free[i], n);
      assert LiveBlock(h, i, b);
    }
  }

  lemma Missing(s: seq<nat>, n: nat) returns (b: nat)
    requires Distinct(s) && |s| < n
    ensures b < n && b !in s
  {
    DistinctSize(s);
    if Range(n) <= Elements(s) {
      SubsetSize(Range(n), Elements(s));
      assert false;
    } else {
      b :| b in Range(n) && b !in Elements(s);
    }
  }

  // ---------------------------------------------------------------- the owner of a block may write to it

  /** A store that hits no free-list link leaves the heap's structure alone. */
  lemma WriteOff(h: Heap, a: nat, w: nat)
    requires Inv(h) && forall j, k :: j in h.all && 0 <= k < |h.free[j]| ==> a != Addr(h, j, h.free[j][k])
    ensures Inv(h.(mem := h.mem[a := w]))
  {
    hide Lists, Offset, Size, PageOf, TypeOf, Distinct, NBlocks;
    var g := h.(mem := h.mem[a := w]);
    ListsSame(h, g);
    forall j | j in g.all
      ensures FreeList(g, j)
    {
      assert FreeList(h, j) && Linked(h, j);
      forall k | 0 <= k < |h.free[j]|
        ensures MemSame(h, g, Addr(h, j, h.free[j][k]))
      {
        assert LinkAt(h, j, k);
      }
      SameFreeList(h, g, j);
    }
  }

  lemma WriteLive(h: Heap, i: nat, b: nat, a: nat, w: nat)
    requires Inv(h) && LiveBlock(h, i, b) && Addr(h, i, b) <= a < Addr(h, i, b) + Size(BlockType(h.prs[i]))
    ensures Inv(h.(mem := h.mem[a := w]))
  {
    hide Lists, Offset, Size, PageOf, TypeOf, Distinct, NBlocks;
    forall j, k | j in h.all && 0 <= k < |h.free[j]|
      ensures a != Addr(h, j, h.free[j][k])
    {
      assert FreeList(h, j) && Linked(h, j) && LinkAt(h, j, k);
      BlocksApart(h, j, h.free[j][k], i, b);
    }
    WriteOff(h, a, w);
  }

  lemma WriteElsewhere(h: Heap, a: nat, w: nat)
    requires Inv(h) && forall j :: j in h.all ==> !(PageAddr(h.prs[j]) <= a < PageAddr(h.prs[j]) + PAGE_SIZE)
    ensures Inv(h.(mem := h.mem[a := w]))
  {
    hide Lists, Offset, Size, PageOf, TypeOf, Distinct, NBlocks;
    forall j, k | j in h.all && 0 <= k < |h.free[j]|
      ensures a != Addr(h, j, h.free[j][k])
    {
      assert FreeList(h, j) && Linked(h, j) && LinkAt(h, j, k);
      OffsetFacts(BlockType(h.prs[j]), h.free[j][k]);
    }
    WriteOff(h, a, w);
  }

  // ---------------------------------------------------------------- effect on the live blocks

  /** Exactly the block of `n` bytes at `r` became live. */
  ghost predicate Gained(h: Heap, g: Heap, r: nat, n: nat)
    requires Shape(h) && Shape(g)
  {
    && (forall m :: !IsLive(h, r, m))
    && (forall a, m :: IsLive(g, a, m) <==> IsLive(h, a, m) || (a == r && m == n))
  }

  lemma GainedBlock(h: Heap, g: Heap, i: nat, b: nat)
    requires Inv(h) && Inv(g) && LiveBlock(g, i, b) && !LiveBlock(h, i, b)
    requires forall j, c :: LiveBlock(g, j, c) <==> LiveBlock(h, j, c) || (j == i && c == b)
    requires forall j :: 0 <= j < NPAGEREFS && j in h.all ==> j in g.all && g.prs[j].pab == h.prs[j].pab
    ensures Gained(h, g, Addr(g, i, b), Size(BlockType(g.prs[i])))
  {
    hide Lists, Pages, Offset, Size, PageOf, TypeOf, NBlocks;
    LiveInAll(g, i, b);
    var r, n := Addr(g, i, b), Size(BlockType(g.prs[i]));
    forall m | IsLive(h, r, m)
      ensures false
    {
      var j: nat, c: nat :| LiveBlock(h, j, c) && Addr(h, j, c) == r && Size(BlockType(h.prs[j])) == m;
      LiveInAll(h, j, c);
      LiveUnique(g, i, b, j, c);
    }
    forall a, m
      ensures IsLive(g, a, m) <==> IsLive(h, a, m) || (a == r && m == n)
    {
      if IsLive(h, a, m) {
        var j: nat, c: nat :| LiveBlock(h, j, c) && Addr(h, j, c) == a && Size(BlockType(h.prs[j])) == m;
        LiveInAll(h, j, c);
        assert LiveBlock(g, j, c) && Addr(g, j, c) == a;
      }
      if IsLive(g, a, m) && !(a == r && m == n) {
        var j: nat, c: nat :| LiveBlock(g, j, c) && Addr(g, j, c) == a && Size(BlockType(g.prs[j])) == m;
        assert LiveBlock(h, j, c);
        LiveInAll(h, j, c);
        assert Addr(h, j, c) == a;
      }
    }
  }

  lemma LiveInAll(h: Heap, j: nat, c: nat)
    requires Shape(h) && LiveBlock(h, j, c)
    ensures j in h.all && j < NPAGEREFS && BlockType(h.prs[j]) < NSIZES
  {
    var k :| 0 <= k < |h.all| && h.all[k] == j;
  }

  /** Two live blocks at one address are the same block. */
  lemma LiveUnique(h: Heap, i: nat, b: nat, j: nat, c: nat)
    requires Inv(h) && LiveBlock(h, i, b) && LiveBlock(h, j, c) && Addr(h, i, b) == Addr(h, j, c)
    ensures i == j && b == c
  {
    hide Lists, Pages, Offset, Size, NBlocks;
    if i != j || b != c {
      BlocksApart(h, i, b, j, c);
    }
  }

  lemma UseUnuse(inuse: seq<nat>, i: nat)
    requires |inuse| == INUSE_WORDS && i < NPAGEREFS && Words32(inuse) && !InUse(inuse, i)
    ensures UnuseRef(UseRef(inuse, i), i) == inuse
  {
    hide Bit, Set, Clear;
    var w, k := inuse[i / 32], i % 32;
    PowWord();
    SetBounded(w, k, 32);
    ClearBounded(Set(w, k), k, 32);
    forall j | 0 <= j < 32
      ensures Bit(Clear(Set(w, k), k), j) <==> Bit(w, j)
    {
      SetBits(w, k, j);
      ClearBits(Set(w, k), k, j);
    }
    SameBits(Clear(Set(w, k), k), w, 32);
  }

  /** Exactly the block at `r` stopped being live. */
  ghost predicate Lost(h: Heap, g: Heap, r: nat)
    requires Shape(h) && Shape(g)
  {
    forall a, m :: IsLive(g, a, m) <==> IsLive(h, a, m) && a != r
  }

  lemma LostBlock(h: Heap, g: Heap, i: nat, b: nat)
    requires Inv(h) && Inv(g) && LiveBlock(h, i, b)
    requires forall j, c :: LiveBlock(g, j, c) <==> LiveBlock(h, j, c) && (j != i || c != b)
    requires forall j :: 0 <= j < NPAGEREFS && j in g.all ==> j in h.all && g.prs[j].pab == h.prs[j].pab
    ensures Lost(h, g, Addr(h, i, b))
  {
    hide Lists, Pages, Offset, Size, PageOf, TypeOf, NBlocks;
    LiveInAll(h, i, b);
    var r := Addr(h, i, b);
    forall a, m
      ensures IsLive(g, a, m) <==> IsLive(h, a, m) && a != r
    {
      if IsLive(g, a, m) {
        var j: nat, c: nat :| LiveBlock(g, j, c) && Addr(g, j, c) == a && Size(BlockType(g.prs[j])) == m;
        LiveInAll(g, j, c);
        assert LiveBlock(h, j, c) && Addr(h, j, c) == a;
        if a == r {
          LiveUnique(h, i, b, j, c);
        }
      }
      if IsLive(h, a, m) && a != r {
        var j: nat, c: nat :| LiveBlock(h, j, c) && Addr(h, j, c) == a && Size(BlockType(h.prs[j])) == m;
        LiveInAll(h, j, c);
        assert LiveBlock(g, j, c);
        LiveInAll(g, j, c);
        assert Addr(g, j, c) == a;
      }
    }
  }

  /** No page of the heap is empty. */
  lemma TightLive(h: Heap, i: nat)
    requires Inv(h) && Tight(h) && i in h.all && i < NPAGEREFS
    ensures exists b :: LiveBlock(h, i, b)
  {
    hide Lists, Pages, Offset, Size, PageOf, TypeOf, NBlocks;
    FreeCount(h, i);
  }
}
