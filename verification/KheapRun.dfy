/** Whole runs of the kernel heap over the boot-time page allocator: ram_stealmem (os161/kern/arch/mips/mips/ram.c) as
    reached through alloc_kpages (os161/kern/arch/mips/mips/dumbvm.c), whose free_kpages keeps nothing for reuse. */
module KheapRun {
  import opened KheapModel
  import opened Seqs
  import opened Kheap

  const KSEG0 := 0x8000_0000
  const TWO32 := 0x1_0000_0000

  /** ram_bootstrap never reports more memory than this. */
  const RAM_MAX := 508 * 1024 * 1024

  // ---------------------------------------------------------------- ram_stealmem

  /** firstpaddr after the request is taken, in 32-bit arithmetic. */
  function Bumped(first: nat, npages: nat): nat {
    (first + npages * PAGE_SIZE % TWO32) % TWO32
  }

  /** What ram_stealmem returns: the first free address, or 0 if the request seems to go past the end. */
  function Stolen(first: nat, last: nat, npages: nat): nat {
    if Bumped(first, npages) > last then 0 else first
  }

  /** The pages handed out are inside the free memory and firstpaddr moves exactly past them -- unless the
      32-bit sum wraps, and then neither is so. */
  lemma StealSound(first: nat, last: nat, npages: nat)
    requires 0 < first <= last < TWO32 && 0 < npages * PAGE_SIZE < TWO32
    requires Stolen(first, last, npages) != 0
    ensures first + npages * PAGE_SIZE <= last <==> first + npages * PAGE_SIZE < TWO32
    ensures Bumped(first, npages) == first + npages * PAGE_SIZE <==> first + npages * PAGE_SIZE < TWO32
  {
  }

  /** A request of nearly 4 GB on a machine with 1 MB succeeds and moves firstpaddr back over memory already
      handed out. */
  lemma StealWraps()
    ensures Stolen(0x2_0000, 0x10_0000, 0xfffff) == 0x2_0000 && Bumped(0x2_0000, 0xfffff) < 0x2_0000
  {
  }

  class Ram {
    var first: nat
    const last: nat

    ghost predicate Ok()
      reads this
    {
      0 < first <= last <= RAM_MAX && first % PAGE_SIZE == 0
    }

    constructor (first: nat, last: nat)
      requires 0 < first <= last <= RAM_MAX && first % PAGE_SIZE == 0
      ensures Ok() && this.first == first && this.last == last
    {
      this.first := first;
      this.last := last;
    }

    /** ram_stealmem */
    method Steal(npages: nat) returns (pa: nat)
      modifies this`first
      ensures pa == Stolen(old(first), last, npages)
      ensures first == if Bumped(old(first), npages) > last then old(first) else Bumped(old(first), npages)
    {
      var size := npages * PAGE_SIZE % TWO32;
      if (first + size) % TWO32 > last {
        return 0;
      }
      pa := first;
      first := (first + size) % TWO32;
    }
  }

  // ---------------------------------------------------------------- runs

  /** A client keeps the pointers it was given, in order, and frees or writes through the k-th one. */
  datatype Op = Malloc(sz: nat) | Free(k: nat) | Poke(k: nat, off: nat, w: nat)

  /** What the client knows of one allocation. */
  datatype Slot = Slot(addr: nat, sz: nat, held: bool, data: map<nat, nat>)

  /** The client's own rules: no request so large that the address arithmetic wraps, no use after free, no
      store past the size asked for. */
  ghost predicate Legal(book: seq<Slot>, op: Op) {
    match op
    case Malloc(sz) => sz <= MAX_REQUEST - RAM_MAX
    case Free(k) => k < |book| && (book[k].addr == 0 || book[k].held)
    case Poke(k, off, w) => k < |book| && book[k].held && off < book[k].sz
  }

  /** The client's view of an operation; `r` is what kmalloc returned. */
  ghost function Noted(book: seq<Slot>, op: Op, r: nat): seq<Slot>
    requires Legal(book, op)
  {
    match op
    case Malloc(sz) => book + [Slot(r, sz, r != 0, map[])]
    case Free(k) => book[k := book[k].(held := false)]
    case Poke(k, off, w) => book[k := book[k].(data := book[k].data[off := w])]
  }

  /** The client's book after `ops`, if kmalloc answered `rs`; operations its rules forbid are not done. */
  ghost function Replay(ops: seq<Op>, rs: seq<nat>): seq<Slot>
    requires |rs| == |ops|
  {
    if ops == [] then []
    else
      var n := |ops| - 1;
      var book := Replay(ops[..n], rs[..n]);
      if Legal(book, ops[n]) then Noted(book, ops[n], rs[n]) else book
  }

  lemma ReplayStep(ops: seq<Op>, rs: seq<nat>, op: Op, r: nat)
    requires |rs| == |ops|
    ensures Replay(ops + [op], rs + [r]) ==
            (var book := Replay(ops, rs); if Legal(book, op) then Noted(book, op, r) else book)
  {
    assert (ops + [op])[..|ops|] == ops && (rs + [r])[..|rs|] == rs;
  }

  /** The (address, length) pairs that are held. */
  ghost function Held(heap: KheapObj): iset<(nat, nat)>
    reads heap
    requires heap.Ok()
  {
    iset a, n | heap.Holds(a, n) :: (a, n)
  }

  ghost predicate SlotOk(held: iset<(nat, nat)>, mem: map<nat, nat>, s: Slot) {
    s.held ==>
      && s.addr != 0
      && (exists n :: n >= s.sz && (s.addr, n) in held)
      && forall off :: off in s.data ==> off < s.sz && s.addr + off in mem && mem[s.addr + off] == s.data[off]
  }

  /** The client's book and the heap agree: the held slots are there, hold what was stored in them, and are
      all there is. */
  ghost predicate Agrees(held: iset<(nat, nat)>, mem: map<nat, nat>, book: seq<Slot>) {
    && (forall i :: 0 <= i < |book| ==> SlotOk(held, mem, book[i]))
    && (forall i, j :: 0 <= i < j < |book| && book[i].held && book[j].held ==> book[i].addr != book[j].addr)
    && Booked(held, book)
  }

  /** Memory did not change over what was held. */
  ghost predicate Kept(held: iset<(nat, nat)>, mem: map<nat, nat>, after: map<nat, nat>) {
    forall p, w :: p in held && p.0 <= w < p.0 + p.1 ==> (w in mem <==> w in after) && (w in mem ==> mem[w] == after[w])
  }

  /** Everything the heap has was taken from below firstpaddr. */
  ghost predicate Below(heap: KheapObj, ram: Ram)
    reads heap, ram
    requires heap.Ok()
  {
    && (forall i :: i in heap.all && i < NPAGEREFS ==> PageAddr(heap.prs[i]) + PAGE_SIZE <= KSEG0 + ram.first)
    && (forall a :: a in heap.big ==> a + heap.big[a] * PAGE_SIZE <= KSEG0 + ram.first)
  }

  /** Held slots do not overlap. */
  lemma HeldApart(heap: KheapObj, book: seq<Slot>, i: nat, j: nat)
    requires heap.Ok() && Agrees(Held(heap), heap.mem, book) && i < j < |book| && book[i].held && book[j].held
    ensures Apart(book[i].addr, book[i].sz, book[j].addr, book[j].sz)
  {
    hide KheapObj.Ok, KheapObj.Holds;
    assert SlotOk(Held(heap), heap.mem, book[i]) && SlotOk(Held(heap), heap.mem, book[j]);
    var n :| n >= book[i].sz && (book[i].addr, n) in Held(heap);
    var m :| m >= book[j].sz && (book[j].addr, m) in Held(heap);
    heap.HeldDisjoint(book[i].addr, n, book[j].addr, m);
  }

  ghost predicate Good(heap: KheapObj, ram: Ram, book: seq<Slot>)
    reads heap, ram
  {
    heap.Ok() && ram.Ok() && Below(heap, ram) && Agrees(Held(heap), heap.mem, book)
  }

  lemma PeekFresh(heap: KheapObj, ram: Ram, npages: nat)
    requires heap.Ok() && ram.Ok() && Below(heap, ram) && 0 < npages
    ensures heap.FreshPages(KSEG0 + ram.first, npages)
  {
    hide KheapObj.Holds, Lists, Pages, Tight, PageOf, TypeOf;
  }

  lemma GrantsEnough(sz: nat, r: nat, k: nat)
    requires Grants(sz, r, k)
    ensures k >= sz
  {
    hide Size;
  }

  /** A slot that is still held, over memory that did not change, is still as the client knows it. */
  lemma SlotMoves(held: iset<(nat, nat)>, mem: map<nat, nat>, now: iset<(nat, nat)>, after: map<nat, nat>, s: Slot)
    requires SlotOk(held, mem, s) && Kept(now, mem, after)
    requires forall n :: (s.addr, n) in held ==> (s.addr, n) in now
    ensures SlotOk(now, after, s)
  {
    if s.held {
      var n :| n >= s.sz && (s.addr, n) in held;
      assert (s.addr, n) in now && n >= s.sz;
      forall off | off in s.data
        ensures s.addr + off in after && after[s.addr + off] == s.data[off]
      {
        assert s.addr + off in mem && s.addr <= s.addr + off < s.addr + n;
      }
    }
  }

  /** Nothing is held but what the book says. */
  ghost predicate Booked(held: iset<(nat, nat)>, book: seq<Slot>) {
    forall p :: p in held ==> exists i :: 0 <= i < |book| && book[i].held && book[i].addr == p.0
  }

  lemma BookedBy(held: iset<(nat, nat)>, book: seq<Slot>, now: iset<(nat, nat)>, after: seq<Slot>)
    requires Booked(held, book)
    requires forall i :: 0 <= i < |book| && book[i].held && (exists n :: (book[i].addr, n) in now) ==>
               i < |after| && after[i].held && after[i].addr == book[i].addr
    requires forall p :: p in now ==> p in held || exists i :: 0 <= i < |after| && after[i].held && after[i].addr == p.0
    ensures Booked(now, after)
  {
    forall p | p in now
      ensures exists i :: 0 <= i < |after| && after[i].held && after[i].addr == p.0
    {
      if p in held {
        var i :| 0 <= i < |book| && book[i].held && book[i].addr == p.0;
        assert (book[i].addr, p.1) in now;
        assert after[i].held && after[i].addr == p.0;
      }
    }
  }

  lemma MallocAgrees(held: iset<(nat, nat)>, mem: map<nat, nat>, after: map<nat, nat>, book: seq<Slot>, sz: nat,
    r: nat, k: nat)
    requires Agrees(held, mem, book) && Kept(held, mem, after)
    requires Legal(book, Malloc(sz)) && r > 0 && k >= sz && forall n :: (r, n) !in held
    ensures Agrees(held + iset{(r, k)}, after, Noted(book, Malloc(sz), r))
  {
    hide Kept, Booked;
    var now, grown := Noted(book, Malloc(sz), r), held + iset{(r, k)};
    forall i | 0 <= i < |book|
      ensures SlotOk(grown, after, book[i])
    {
      SlotMoves(held, mem, held, after, book[i]);
      SlotGrows(held, grown, after, book[i]);
    }
    assert (r, k) in grown;
    assert SlotOk(grown, after, now[|book|]);
    assert now[|book|].held && now[|book|].addr == r;
    BookedBy(held, book, grown, now);
    forall i | 0 <= i < |book| && book[i].held
      ensures book[i].addr != r
    {
      assert SlotOk(held, mem, book[i]);
    }
  }

  lemma SlotGrows(held: iset<(nat, nat)>, grown: iset<(nat, nat)>, mem: map<nat, nat>, s: Slot)
    requires SlotOk(held, mem, s) && held <= grown
    ensures SlotOk(grown, mem, s)
  {
    if s.held {
      var n :| n >= s.sz && (s.addr, n) in held;
      assert (s.addr, n) in grown;
    }
  }

  lemma FailAgrees(held: iset<(nat, nat)>, mem: map<nat, nat>, after: map<nat, nat>, book: seq<Slot>, sz: nat)
    requires Agrees(held, mem, book) && Kept(held, mem, after) && Legal(book, Malloc(sz))
    ensures Agrees(held, after, Noted(book, Malloc(sz), 0))
  {
    hide Kept, SlotOk, Booked;
    var now := Noted(book, Malloc(sz), 0);
    forall i | 0 <= i < |book|
      ensures SlotOk(held, after, book[i])
    {
      SlotMoves(held, mem, held, after, book[i]);
    }
    NotHeldOk(held, after, now[|book|]);
    BookedBy(held, book, held, now);
  }

  lemma StillAgrees(held: iset<(nat, nat)>, mem: map<nat, nat>, after: map<nat, nat>, book: seq<Slot>)
    requires Agrees(held, mem, book) && Kept(held, mem, after)
    ensures Agrees(held, after, book)
  {
    hide Kept, SlotOk, Booked;
    forall i | 0 <= i < |book|
      ensures SlotOk(held, after, book[i])
    {
      SlotMoves(held, mem, held, after, book[i]);
    }
  }

  lemma NotHeldOk(held: iset<(nat, nat)>, mem: map<nat, nat>, s: Slot)
    requires !s.held
    ensures SlotOk(held, mem, s)
  {
  }

  lemma FreeAgrees(held: iset<(nat, nat)>, mem: map<nat, nat>, left: iset<(nat, nat)>, after: map<nat, nat>,
    book: seq<Slot>, k: nat)
    requires Agrees(held, mem, book) && Legal(book, Free(k)) && Kept(left, mem, after)
    requires forall p :: p in left <==> p in held && p.0 != book[k].addr
    ensures Agrees(left, after, Noted(book, Free(k), 0))
  {
    hide Kept, SlotOk, Booked;
    var now := Noted(book, Free(k), 0);
    NotHeldOk(left, after, now[k]);
    forall i | 0 <= i < |book| && i != k
      ensures SlotOk(left, after, book[i]) && (book[i].held ==> book[i].addr != book[k].addr)
    {
      if book[i].held {
        HeldAddr(held, mem, book[i]);
        assert book[i].addr != book[k].addr;
        SlotMoves(held, mem, left, after, book[i]);
      } else {
        NotHeldOk(left, after, book[i]);
      }
    }
    BookedBy(held, book, left, now);
  }

  lemma HeldAddr(held: iset<(nat, nat)>, mem: map<nat, nat>, s: Slot)
    requires SlotOk(held, mem, s) && s.held
    ensures s.addr != 0
  {
  }

  lemma RequestFits(sz: nat, first: nat, last: nat)
    requires sz <= MAX_REQUEST - RAM_MAX && 0 < first <= last <= RAM_MAX && first % PAGE_SIZE == 0
    ensures PagesFor(sz) > 0
    ensures Stolen(first, last, PagesFor(sz)) == if first + PagesFor(sz) * PAGE_SIZE > last then 0 else first
    ensures Bumped(first, PagesFor(sz)) == first + PagesFor(sz) * PAGE_SIZE
    ensures (first + PagesFor(sz) * PAGE_SIZE) % PAGE_SIZE == 0
  {
  }

  // ---------------------------------------------------------------- when kmalloc may say no

  ghost function HeldSlots(book: seq<Slot>): set<nat> {
    set j: nat | 0 <= j < |book| && book[j].held
  }

  /** The pages the request would need are not there; or it is a small one, and the client holds so many
      allocations that every page reference can be in use. */
  ghost predicate Denied(first: nat, last: nat, book: seq<Slot>, sz: nat) {
    || first + PagesFor(sz) * PAGE_SIZE > last
    || (sz < LARGEST_SUBPAGE_SIZE && |HeldSlots(book)| >= NPAGEREFS)
  }

  /** Slot `j` is on the page of reference `i`. */
  ghost predicate SlotOn(h: Heap, book: seq<Slot>, i: nat, j: nat)
    requires Shape(h) && i < NPAGEREFS
  {
    j < |book| && book[j].held && PageAddr(h.prs[i]) <= book[j].addr < PageAddr(h.prs[i]) + PAGE_SIZE
  }

  ghost function SlotsOn(h: Heap, book: seq<Slot>, m: nat): set<nat>
    requires Shape(h) && m <= NPAGEREFS
  {
    set j: nat | 0 <= j < |book| && OnSome(h, book, m, j)
  }

  ghost predicate OnSome(h: Heap, book: seq<Slot>, m: nat, j: nat)
    requires Shape(h) && m <= NPAGEREFS
  {
    exists i :: 0 <= i < m && SlotOn(h, book, i, j)
  }

  ghost predicate HasSlot(h: Heap, book: seq<Slot>, i: nat)
    requires Shape(h) && i < NPAGEREFS
  {
    exists j :: SlotOn(h, book, i, j)
  }

  lemma SlotNotEarlier(h: Heap, book: seq<Slot>, m: nat, j: nat)
    requires Shape(h) && m < NPAGEREFS && SlotOn(h, book, m, j)
    requires forall i :: 0 <= i < m ==> Apart(PageAddr(h.prs[i]), PAGE_SIZE, PageAddr(h.prs[m]), PAGE_SIZE)
    ensures !OnSome(h, book, m, j)
  {
    hide PageOf, TypeOf, Shape;
  }

  lemma OnSomeMore(h: Heap, book: seq<Slot>, m: nat, j: nat)
    requires Shape(h) && m < NPAGEREFS && (OnSome(h, book, m, j) || SlotOn(h, book, m, j))
    ensures OnSome(h, book, m + 1, j)
  {
    hide SlotOn;
  }

  lemma {:induction false} SlotPerPage(h: Heap, book: seq<Slot>, m: nat)
    requires Shape(h) && m <= NPAGEREFS && forall i :: 0 <= i < m ==> HasSlot(h, book, i)
    requires forall i, k :: 0 <= i < k < m ==> Apart(PageAddr(h.prs[i]), PAGE_SIZE, PageAddr(h.prs[k]), PAGE_SIZE)
    ensures |SlotsOn(h, book, m)| >= m
  {
    if m == 0 {
    } else {
      SlotPerPage(h, book, m - 1);
      AnotherSlot(h, book, m - 1);
    }
  }

  lemma AnotherSlot(h: Heap, book: seq<Slot>, m: nat)
    requires Shape(h) && m < NPAGEREFS && HasSlot(h, book, m)
    requires forall i :: 0 <= i < m ==> Apart(PageAddr(h.prs[i]), PAGE_SIZE, PageAddr(h.prs[m]), PAGE_SIZE)
    ensures |SlotsOn(h, book, m + 1)| >= |SlotsOn(h, book, m)| + 1
  {
    hide OnSome, PageOf, TypeOf, Apart;
    var j: nat :| SlotOn(h, book, m, j);
    SlotNotEarlier(h, book, m, j);
    OnSomeMore(h, book, m, j);
    var before := SlotsOn(h, book, m);
    forall k | k in before
      ensures OnSome(h, book, m + 1, k)
    {
      OnSomeMore(h, book, m, k);
    }
    assert before + {j} <= SlotsOn(h, book, m + 1);
    SubsetSize(before + {j}, SlotsOn(h, book, m + 1));
  }

  lemma PageHasSlot(heap: KheapObj, book: seq<Slot>, i: nat)
    requires heap.Ok() && Agrees(Held(heap), heap.mem, book) && i in heap.all && i < NPAGEREFS
    ensures HasSlot(heap.H(), book, i)
  {
    hide Lists, Pages, PageOf, TypeOf, Size, Offset, NBlocks, SlotOk, Tight;
    var h := heap.H();
    TightLive(h, i);
    var b: nat :| LiveBlock(h, i, b);
    LiveInAll(h, i, b);
    var a, n := Addr(h, i, b), Size(BlockType(h.prs[i]));
    assert IsLive(h, a, n);
    assert (a, n) in Held(heap);
    OffsetFacts(BlockType(h.prs[i]), b);
    var j :| 0 <= j < |book| && book[j].held && book[j].addr == (a, n).0;
    assert SlotOn(h, book, i, j);
  }

  /** With every page reference in use, the client holds at least that many allocations. */
  lemma RefsAreHeld(heap: KheapObj, book: seq<Slot>)
    requires heap.Ok() && Agrees(Held(heap), heap.mem, book) && heap.NoRefs()
    ensures |HeldSlots(book)| >= NPAGEREFS
  {
    hide Agrees, Lists, Pages, PageOf, TypeOf, Tight, InUse, KheapObj.BigOk;
    var h := heap.H();
    forall i | 0 <= i < NPAGEREFS
      ensures i in heap.all && HasSlot(h, book, i)
    {
      InAllIff(h, i);
      PageHasSlot(heap, book, i);
    }
    forall i, k | 0 <= i < k < NPAGEREFS
      ensures Apart(PageAddr(h.prs[i]), PAGE_SIZE, PageAddr(h.prs[k]), PAGE_SIZE)
    {
      PagesDisjoint(h, i, k);
    }
    SlotPerPage(h, book, NPAGEREFS);
    assert SlotsOn(h, book, NPAGEREFS) <= HeldSlots(book);
    SubsetSize(SlotsOn(h, book, NPAGEREFS), HeldSlots(book));
  }

  lemma PagesDisjoint(h: Heap, i: nat, k: nat)
    requires Inv(h) && i in h.all && k in h.all && i < NPAGEREFS && k < NPAGEREFS && i != k
    ensures Apart(PageAddr(h.prs[i]), PAGE_SIZE, PageAddr(h.prs[k]), PAGE_SIZE)
  {
    hide Lists, FreeList, TypeOf;
    PagesApart(PageAddr(h.prs[i]), PageAddr(h.prs[k]), h.prs[i].pab, h.prs[k].pab);
  }

  /** What a step does to firstpaddr (from `m` to `m2`): only an allocation moves it, by the pages it asked
      for, and only a denied request gets 0. */
  ghost predicate Paid(book: seq<Slot>, op: Op, r: nat, m: nat, m2: nat, last: nat) {
    if op.Malloc? && Legal(book, op) then
      && (m2 == m || (r != 0 && m2 == m + PagesFor(op.sz) * PAGE_SIZE <= last))
      && (r == 0 ==> Denied(m, last, book, op.sz))
    else m2 == m
  }

  ghost predicate PaidAt(ops: seq<Op>, rs: seq<nat>, marks: seq<nat>, last: nat, k: nat)
    requires k < |rs| <= |ops| && |marks| == |rs| + 1
  {
    Paid(Replay(ops[..k], rs[..k]), ops[k], rs[k], marks[k], marks[k + 1], last)
  }

  lemma PaidKept(ops: seq<Op>, rs: seq<nat>, marks: seq<nat>, last: nat, r: nat, m: nat, k: nat)
    requires k < |rs| < |ops| && |marks| == |rs| + 1 && PaidAt(ops, rs, marks, last, k)
    ensures PaidAt(ops, rs + [r], marks + [m], last, k)
  {
    hide Replay, Paid;
    assert (rs + [r])[..k] == rs[..k];
  }

  /** kmalloc, with the page allocator behind it. */
  method Alloc(heap: KheapObj, ram: Ram, sz: nat, ghost book: seq<Slot>) returns (r: nat)
    requires Good(heap, ram, book) && Legal(book, Malloc(sz))
    modifies heap, ram`first
    ensures Good(heap, ram, Noted(book, Malloc(sz), r))
    ensures Paid(book, Malloc(sz), r, old(ram.first), ram.first, ram.last)
    ensures r == 0 && sz < LARGEST_SUBPAGE_SIZE ==> heap.NoRoom(sz)
  {
    hide KheapObj.Ok, KheapObj.Holds, KheapObj.NoRoom, KheapObj.NoRefs, Agrees, Grants, PagesFor, Bumped, Stolen,
      HeldSlots;
    var npages := PagesFor(sz);
    RequestFits(sz, ram.first, ram.last);
    var pa := Stolen(ram.first, ram.last, npages);
    var pages := if pa == 0 then 0 else KSEG0 + pa;
    PeekFresh(heap, ram, npages);
    ghost var held, mem := Held(heap), heap.mem;
    var asked;
    r, asked := heap.Kmalloc(sz, pages);
    assert Kept(held, mem, heap.mem);
    if r == 0 {
      assert Held(heap) == held;
      FailAgrees(held, mem, heap.mem, book, sz);
      if pages != 0 {
        StillAgrees(held, mem, heap.mem, book);
        RefsAreHeld(heap, book);
      }
    } else {
      ghost var k :| Grants(sz, r, k) && heap.NowHolds(r, k);
      GrantsEnough(sz, r, k);
      assert Held(heap) == held + iset{(r, k)};
      MallocAgrees(held, mem, heap.mem, book, sz, r, k);
    }
    if asked {
      var taken := ram.Steal(npages);
    }
  }

  /** kfree of one of the client's pointers. */
  method Release(heap: KheapObj, ram: Ram, ptr: nat, ghost k: nat, ghost book: seq<Slot>)
    requires Good(heap, ram, book) && Legal(book, Free(k)) && ptr == book[k].addr
    modifies heap
    ensures Good(heap, ram, Noted(book, Free(k), 0))
  {
    hide KheapObj.Ok, KheapObj.Holds, Agrees;
    ghost var held, mem := Held(heap), heap.mem;
    StillHeld(heap, book, k);
    heap.Kfree(ptr);
    assert Kept(Held(heap), mem, heap.mem);
    FreeAgrees(held, mem, Held(heap), heap.mem, book, k);
  }

  lemma StillHeld(heap: KheapObj, book: seq<Slot>, k: nat)
    requires heap.Ok() && Agrees(Held(heap), heap.mem, book) && k < |book|
    ensures book[k].held ==> exists n :: n >= book[k].sz && heap.Holds(book[k].addr, n)
  {
    hide KheapObj.Ok, KheapObj.Holds;
    assert SlotOk(Held(heap), heap.mem, book[k]);
    if book[k].held {
      var n :| n >= book[k].sz && (book[k].addr, n) in Held(heap);
      assert heap.Holds(book[k].addr, n);
    }
  }

  /** A store through one of the client's pointers. */
  method Write(heap: KheapObj, ram: Ram, ptr: nat, k: nat, off: nat, w: nat, ghost book: seq<Slot>)
    requires Good(heap, ram, book) && Legal(book, Poke(k, off, w)) && ptr == book[k].addr
    modifies heap
    ensures Good(heap, ram, Noted(book, Poke(k, off, w), 0))
  {
    hide KheapObj.Ok, KheapObj.Holds, Agrees;
    ghost var held, mem := Held(heap), heap.mem;
    StillHeld(heap, book, k);
    ghost var n :| n >= book[k].sz && heap.Holds(ptr, n);
    forall i, j | 0 <= i < j < |book| && book[i].held && book[j].held
      ensures Apart(book[i].addr, book[i].sz, book[j].addr, book[j].sz)
    {
      HeldApart(heap, book, i, j);
    }
    heap.Store(ptr + off, w, ptr, n);
    assert Held(heap) == held;
    PokeAgrees(held, mem, book, k, off, w);
  }

  lemma PokeAgrees(held: iset<(nat, nat)>, mem: map<nat, nat>, book: seq<Slot>, k: nat, off: nat, w: nat)
    requires Agrees(held, mem, book) && Legal(book, Poke(k, off, w))
    requires forall i, j :: 0 <= i < j < |book| && book[i].held && book[j].held ==>
               Apart(book[i].addr, book[i].sz, book[j].addr, book[j].sz)
    ensures Agrees(held, mem[book[k].addr + off := w], Noted(book, Poke(k, off, w), 0))
  {
    hide Booked, SlotOk;
    var now, after := Noted(book, Poke(k, off, w), 0), mem[book[k].addr + off := w];
    PokeSlot(held, mem, book[k], off, w);
    forall i | 0 <= i < |book| && i != k
      ensures SlotOk(held, after, now[i])
    {
      if book[i].held {
        assert Apart(book[i].addr, book[i].sz, book[k].addr, book[k].sz) by {
          if k < i {
            assert Apart(book[k].addr, book[k].sz, book[i].addr, book[i].sz);
          }
        }
        PokeOther(held, mem, book[i], book[k].addr + off, w);
      } else {
        NotHeldOk(held, after, book[i]);
      }
    }
    BookedBy(held, book, held, now);
  }

  lemma PokeSlot(held: iset<(nat, nat)>, mem: map<nat, nat>, s: Slot, off: nat, w: nat)
    requires SlotOk(held, mem, s) && s.held && off < s.sz
    ensures SlotOk(held, mem[s.addr + off := w], s.(data := s.data[off := w]))
  {
  }

  lemma PokeOther(held: iset<(nat, nat)>, mem: map<nat, nat>, s: Slot, a: nat, w: nat)
    requires SlotOk(held, mem, s) && !(s.addr <= a < s.addr + s.sz)
    ensures SlotOk(held, mem[a := w], s)
  {
  }

  /** Runs the operations one after the other.  Whatever kmalloc answers along the way (`rs`), the heap ends
      up holding just what the client's book says it should: what is held stays apart and holds what was last
      stored in it.  kmalloc answers 0 only to a request that is denied for want of memory or of page
      references (`marks` is firstpaddr along the way). */
  method Run(heap: KheapObj, ram: Ram, ops: seq<Op>)
    returns (ghost rs: seq<nat>, ghost book: seq<Slot>, ghost marks: seq<nat>)
    requires Good(heap, ram, [])
    modifies heap, ram`first
    ensures |rs| == |ops| && book == Replay(ops, rs) && Good(heap, ram, book)
    ensures |marks| == |ops| + 1 && marks[0] == old(ram.first)
      && forall k :: 0 <= k < |ops| ==> PaidAt(ops, rs, marks, ram.last, k)
    ensures forall i, j :: 0 <= i < j < |book| && book[i].held && book[j].held ==>
              Apart(book[i].addr, book[i].sz, book[j].addr, book[j].sz)
  {
    hide KheapObj.Ok, KheapObj.Holds, Agrees, Good, Denied;
    rs, book, marks := [], [], [ram.first];
    var ptrs: seq<nat>, slots: seq<(nat, bool)> := [], [];
    for o := 0 to |ops|
      invariant |rs| == o && book == Replay(ops[..o], rs) && Good(heap, ram, book)
      invariant |marks| == o + 1 && marks[0] == old(ram.first) && marks[o] == ram.first
      invariant forall k :: 0 <= k < o ==> PaidAt(ops, rs, marks, ram.last, k)
      invariant |ptrs| == |slots| == |book|
      invariant forall i :: 0 <= i < |book| ==> ptrs[i] == book[i].addr && slots[i] == (book[i].sz, book[i].held)
    {
      assert ops[..o + 1] == ops[..o] + [ops[o]];
      var r := 0;
      ghost var before := book;
      match ops[o] {
        case Malloc(sz) =>
          if sz <= MAX_REQUEST - RAM_MAX {
            r := Alloc(heap, ram, sz, book);
            book, ptrs, slots := Noted(book, ops[o], r), ptrs + [r], slots + [(sz, r != 0)];
          }
        case Free(k) =>
          if k < |ptrs| && (ptrs[k] == 0 || slots[k].1) {
            Release(heap, ram, ptrs[k], k, book);
            book, slots := Noted(book, ops[o], 0), slots[k := (slots[k].0, false)];
          }
        case Poke(k, off, w) =>
          if k < |ptrs| && slots[k].1 && off < slots[k].0 {
            Write(heap, ram, ptrs[k], k, off, w, book);
            book := Noted(book, ops[o], 0);
          }
      }
      ReplayStep(ops[..o], rs, ops[o], r);
      forall k | 0 <= k < o
        ensures PaidAt(ops, rs + [r], marks + [ram.first], ram.last, k)
      {
        PaidKept(ops, rs, marks, ram.last, r, ram.first, k);
      }
      assert Paid(before, ops[o], r, marks[o], ram.first, ram.last);
      assert (rs + [r])[..o] == rs;
      rs, marks := rs + [r], marks + [ram.first];
    }
    assert ops[..|ops|] == ops;
    forall i, j | 0 <= i < j < |book| && book[i].held && book[j].held
      ensures Apart(book[i].addr, book[i].sz, book[j].addr, book[j].sz)
    {
      GoodApart(heap, ram, book, i, j);
    }
  }

  lemma GoodApart(heap: KheapObj, ram: Ram, book: seq<Slot>, i: nat, j: nat)
    requires Good(heap, ram, book) && i < j < |book| && book[i].held && book[j].held
    ensures Apart(book[i].addr, book[i].sz, book[j].addr, book[j].sz)
  {
    hide KheapObj.Ok, KheapObj.Holds, Agrees;
    HeldApart(heap, book, i, j);
  }

  /** The same from boot, with any amount of memory. */
  method Boot(first: nat, last: nat, ops: seq<Op>)
    returns (heap: KheapObj, ghost rs: seq<nat>, ghost book: seq<Slot>, ghost marks: seq<nat>)
    requires 0 < first <= last <= RAM_MAX && first % PAGE_SIZE == 0
    ensures |rs| == |ops| && book == Replay(ops, rs) && heap.Ok() && Agrees(Held(heap), heap.mem, book)
    ensures |marks| == |ops| + 1 && marks[0] == first && forall k :: 0 <= k < |ops| ==> PaidAt(ops, rs, marks, last, k)
    ensures forall i, j :: 0 <= i < j < |book| && book[i].held && book[j].held ==>
              Apart(book[i].addr, book[i].sz, book[j].addr, book[j].sz)
  {
    hide KheapObj.Ok, KheapObj.Holds, PaidAt;
    heap := new KheapObj();
    var ram := new Ram(first, last);
    rs, book, marks := Run(heap, ram, ops);
  }
}
