/** What a run of the kernel heap means to its client, told on the operations and kmalloc's answers alone. */
module KheapLaws {
  import opened Seqs
  import opened KheapModel
  import opened Kheap
  import opened KheapRun

  /** No request is so large that the address arithmetic could wrap. */
  predicate Modest(ops: seq<Op>) {
    forall p :: 0 <= p < |ops| && ops[p].Malloc? ==> ops[p].sz <= 0xe03f_f000
  }

  /** How many times kmalloc is called. */
  function Mallocs(ops: seq<Op>): nat {
    if ops == [] then 0 else Mallocs(ops[..|ops| - 1]) + if ops[|ops| - 1].Malloc? then 1 else 0
  }

  /** The allocation made by operation `p` has not been freed. */
  predicate Unfreed(ops: seq<Op>, p: nat)
    requires p < |ops|
  {
    forall q :: p < q < |ops| ==> ops[q] != Free(Mallocs(ops[..p]))
  }

  lemma {:induction false} BookSize(ops: seq<Op>, rs: seq<nat>)
    requires |rs| == |ops| && Modest(ops)
    ensures |Replay(ops, rs)| == Mallocs(ops)
  {
    if ops == [] {
    } else {
      var n := |ops| - 1;
      BookSize(ops[..n], rs[..n]);
    }
  }

  lemma MallocsMore(ops: seq<Op>, p: nat)
    requires p < |ops| && ops[p].Malloc?
    ensures Mallocs(ops[..p]) < Mallocs(ops)
  {
    var n := |ops| - 1;
    if p == n {
    } else {
      MallocsMore(ops[..n], p);
      assert ops[..n][..p] == ops[..p];
    }
  }

  /** The client's k-th slot is what the k-th call of kmalloc returned, and is held until it is freed. */
  lemma {:induction false} SlotIs(ops: seq<Op>, rs: seq<nat>, p: nat)
    requires |rs| == |ops| && Modest(ops) && p < |ops| && ops[p].Malloc?
    ensures Mallocs(ops[..p]) < |Replay(ops, rs)|
    ensures var s := Replay(ops, rs)[Mallocs(ops[..p])];
      s.addr == rs[p] && s.sz == ops[p].sz && (s.held <==> rs[p] != 0 && Unfreed(ops, p))
    decreases |ops|
  {
    var n := |ops| - 1;
    BookSize(ops, rs);
    BookSize(ops[..n], rs[..n]);
    MallocsMore(ops, p);
    if p == n {
    } else {
      var k := Mallocs(ops[..p]);
      assert ops[..n][..p] == ops[..p];
      SlotIs(ops[..n], rs[..n], p);
      var book := Replay(ops[..n], rs[..n]);
      assert Unfreed(ops, p) <==> Unfreed(ops[..n], p) && ops[n] != Free(k) by {
        assert forall q :: 0 <= q < n ==> ops[..n][q] == ops[q];
      }
    }
  }

  /** The last store to a place of an unfreed allocation is what the client's book has there. */
  lemma {:induction false} LastStore(ops: seq<Op>, rs: seq<nat>, p: nat, q: nat, off: nat, w: nat)
    requires |rs| == |ops| && Modest(ops) && p < q < |ops| && ops[p].Malloc? && rs[p] != 0 && off < ops[p].sz
    requires Unfreed(ops, p) && ops[q] == Poke(Mallocs(ops[..p]), off, w)
    requires forall o :: q < o < |ops| && ops[o].Poke? ==> ops[o].k != ops[q].k || ops[o].off != off
    ensures Mallocs(ops[..p]) < |Replay(ops, rs)|
    ensures var s := Replay(ops, rs)[Mallocs(ops[..p])]; off in s.data && s.data[off] == w
    decreases |ops|
  {
    var n := |ops| - 1;
    var before := ops[..n];
    assert before[..p] == ops[..p];
    assert forall o :: 0 <= o < n ==> before[o] == ops[o];
    SlotIs(before, rs[..n], p);
    SlotIs(ops, rs, p);
    if q == n {
    } else {
      LastStore(before, rs[..n], p, q, off, w);
    }
  }

  /** Whatever is done with the rest of the heap, a word stored in an allocation is there until it is stored
      over or the allocation is freed. */
  lemma StoreStays(heap: KheapObj, ops: seq<Op>, rs: seq<nat>, p: nat, q: nat, off: nat, w: nat)
    requires |rs| == |ops| && heap.Ok() && Agrees(Held(heap), heap.mem, Replay(ops, rs))
    requires Modest(ops) && p < q < |ops| && ops[p].Malloc? && rs[p] != 0 && off < ops[p].sz
    requires Unfreed(ops, p) && ops[q] == Poke(Mallocs(ops[..p]), off, w)
    requires forall o :: q < o < |ops| && ops[o].Poke? ==> ops[o].k != ops[q].k || ops[o].off != off
    ensures rs[p] + off in heap.mem && heap.mem[rs[p] + off] == w
  {
    hide KheapObj.Ok, KheapObj.Holds, Replay;
    SlotIs(ops, rs, p);
    LastStore(ops, rs, p, q, off, w);
    assert SlotOk(Held(heap), heap.mem, Replay(ops, rs)[Mallocs(ops[..p])]);
  }

  /** Two allocations that have not been freed do not overlap. */
  lemma UnfreedApart(heap: KheapObj, ops: seq<Op>, rs: seq<nat>, p: nat, q: nat)
    requires |rs| == |ops| && heap.Ok() && Agrees(Held(heap), heap.mem, Replay(ops, rs)) && Modest(ops)
    requires p < q < |ops| && ops[p].Malloc? && ops[q].Malloc? && rs[p] != 0 && rs[q] != 0
    requires Unfreed(ops, p) && Unfreed(ops, q)
    ensures rs[p] + ops[p].sz <= rs[q] || rs[q] + ops[q].sz <= rs[p]
  {
    hide KheapObj.Ok, KheapObj.Holds, Replay, Agrees;
    SlotIs(ops, rs, p);
    SlotIs(ops, rs, q);
    MallocsMore(ops[..q], p);
    assert ops[..q][..p] == ops[..p];
    HeldApart(heap, Replay(ops, rs), Mallocs(ops[..p]), Mallocs(ops[..q]));
  }

  lemma {:induction false} MadeBy(ops: seq<Op>, k: nat) returns (p: nat)
    requires k < Mallocs(ops)
    ensures p < |ops| && ops[p].Malloc? && Mallocs(ops[..p]) == k
    decreases |ops|
  {
    var n := |ops| - 1;
    if k < Mallocs(ops[..n]) {
      p := MadeBy(ops[..n], k);
      assert ops[..n][..p] == ops[..p];
    } else {
      p := n;
    }
  }

  /** What the heap has given out is what was asked for and not freed: nothing leaks and nothing is given out
      by itself. */
  lemma HeldIsUnfreed(heap: KheapObj, ops: seq<Op>, rs: seq<nat>, a: nat)
    requires |rs| == |ops| && heap.Ok() && Agrees(Held(heap), heap.mem, Replay(ops, rs)) && Modest(ops)
    ensures (exists n: nat :: heap.Holds(a, n))
      <==> (exists p :: 0 <= p < |ops| && ops[p].Malloc? && rs[p] == a && a != 0 && Unfreed(ops, p))
  {
    hide KheapObj.Ok, KheapObj.Holds, Replay;
    var book := Replay(ops, rs);
    if n: nat :| heap.Holds(a, n) {
      assert (a, n) in Held(heap);
      var i :| 0 <= i < |book| && book[i].held && book[i].addr == (a, n).0;
      BookSize(ops, rs);
      var p := MadeBy(ops, i);
      SlotIs(ops, rs, p);
      assert SlotOk(Held(heap), heap.mem, book[i]);
    }
    if p :| 0 <= p < |ops| && ops[p].Malloc? && rs[p] == a && a != 0 && Unfreed(ops, p) {
      SlotIs(ops, rs, p);
      StillHeld(heap, book, Mallocs(ops[..p]));
    }
  }

  lemma {:induction false} FewHeld(book: seq<Slot>)
    ensures |HeldSlots(book)| <= |book|
  {
    if book == [] {
    } else {
      var n := |book| - 1;
      FewHeld(book[..n]);
      SubsetSize(HeldSlots(book), HeldSlots(book[..n]) + {n});
    }
  }

  /** kmalloc does not fail while the pages it could need are there and, for a small request, there were fewer
      than 256 before it. */
  lemma Granted(ops: seq<Op>, rs: seq<nat>, marks: seq<nat>, last: nat, p: nat)
    requires |rs| == |ops| && |marks| == |rs| + 1 && Modest(ops) && p < |ops| && PaidAt(ops, rs, marks, last, p)
    requires ops[p].Malloc? && marks[p] + (if ops[p].sz < 2048 then 1 else (ops[p].sz + 4095) / 4096) * 4096 <= last
    requires ops[p].sz < 2048 ==> Mallocs(ops[..p]) < 256
    ensures rs[p] != 0
  {
    hide Replay;
    var book := Replay(ops[..p], rs[..p]);
    assert forall o :: 0 <= o < p ==> ops[..p][o] == ops[o];
    BookSize(ops[..p], rs[..p]);
    FewHeld(book);
  }

  /** The block sizes double from 16 to half a page. */
  lemma SizesDouble(t: nat)
    requires t < NSIZES
    ensures Size(t) == (if t == 0 then 16 else 2 * Size(t - 1)) && NBlocks(t) * Size(t) == 4096
    ensures t + 1 == NSIZES <==> Size(t) == 2048
  {
  }

  /** What kmalloc gives for `sz` bytes: the least power of two from 16 on that is enough, aligned to it, or
      whole pages. */
  lemma GrantsLaw(sz: nat, r: nat, k: nat)
    requires Grants(sz, r, k)
    ensures sz < 2048 ==>
      k in {16, 32, 64, 128, 256, 512, 1024, 2048} && sz <= k && (k == 16 || k / 2 < sz) && r % k == 0
    ensures sz >= 2048 ==> r % 4096 == 0 && k % 4096 == 0 && sz <= k < sz + 4096
  {
    if sz < 2048 {
      var t: nat :| Fits(sz, t) && k == Size(t) && r % k == 0;
      SizesDouble(t);
      assert t > 0 ==> Size(t - 1) < sz;
    }
  }
}
