/** The growable ring buffer of pointers (os161/kern/lib/queue.c).  kmalloc is an argument: `mem` says whether it would
    give memory if the call asked for any. */
module Queue {

  /** The elements of a ring buffer, oldest first.  One slot is always left empty. */
  function Ring<T>(data: seq<T>, nextread: nat, nextwrite: nat): seq<T>
    requires nextread < |data| && nextwrite < |data|
  {
    if nextread <= nextwrite then data[nextread..nextwrite] else data[nextread..] + data[..nextwrite]
  }

  function Next(i: nat, size: nat): nat
    requires i < size
  {
    if i + 1 == size then 0 else i + 1
  }

  lemma NextMod(i: nat, size: nat)
    requires i < size
    ensures (i + 1) % size == Next(i, size)
  {
  }

  lemma RingPush<T>(data: seq<T>, r: nat, w: nat, x: T)
    requires r < |data| && w < |data| && Next(w, |data|) != r
    ensures Ring(data[w := x], r, Next(w, |data|)) == Ring(data, r, w) + [x]
  {
    var now := data[w := x];
    if r <= w {
      assert now[r..w] == data[r..w];
      if w + 1 < |data| {
        assert now[r..w + 1] == data[r..w] + [x];
      } else {
        assert now[r..] == data[r..w] + [x];
      }
    } else {
      assert now[r..] == data[r..];
      assert now[..w + 1] == data[..w] + [x];
    }
  }

  lemma RingPop<T>(data: seq<T>, r: nat, w: nat)
    requires r < |data| && w < |data| && r != w
    ensures Ring(data, r, w) == [data[r]] + Ring(data, Next(r, |data|), w)
  {
  }

  /** The ring is full with |data| - 1 elements, and then exactly is the next write slot the read slot. */
  lemma RingFull<T>(data: seq<T>, r: nat, w: nat)
    requires r < |data| && w < |data|
    ensures |Ring(data, r, w)| <= |data| - 1
    ensures Next(w, |data|) == r <==> |Ring(data, r, w)| == |data| - 1
    ensures w == r <==> Ring(data, r, w) == []
  {
  }

  /** The size q_grow settles on: doubled until it is enough. */
  function Doubled(size: nat, target: nat): (r: nat)
    requires size > 0
    ensures r >= target && r >= size
    decreases target - size
  {
    if size < target then Doubled(size * 2, target) else size
  }

  class Queue<T(0)> {
    var size: nat
    var nextwrite: nat
    var nextread: nat
    var data: array<T>

    ghost predicate Valid()
      reads this
    {
      data.Length == size && nextread < size && nextwrite < size
    }

    ghost function Contents(): seq<T>
      reads this, data
      requires Valid()
    {
      Ring(data[..], nextread, nextwrite)
    }

    /** q_create; a queue of size 0 is refused by every other operation. */
    constructor (size: nat)
      requires size > 0
      ensures Valid() && Contents() == [] && this.size == size && fresh(data)
    {
      this.size := size;
      data := new T[size];
      nextread, nextwrite := 0, 0;
    }

    lemma Bounded()
      requires Valid()
      ensures |Contents()| < size
    {
      RingFull(data[..], nextread, nextwrite);
    }

    method Empty() returns (b: bool)
      requires Valid()
      ensures b <==> Contents() == []
    {
      RingFull(data[..], nextread, nextwrite);
      b := nextwrite == nextread;
    }

    /** q_grow: the same elements in a larger ring, or nothing at all happened. */
    method Grow(target: nat, mem: bool) returns (ok: bool)
      requires Valid() && size < target
      modifies this, data
      ensures Valid() && Contents() == old(Contents()) && ok == mem
      ensures ok ==> size == Doubled(old(size), target) && fresh(data)
      ensures !ok ==> size == old(size) && data == old(data) && unchanged(this)
      decreases 1
    {
      hide Ring;
      var olddata, onr, onw, osize := data, nextread, nextwrite, size;
      ghost var was := Contents();
      var nsize := size;
      while nsize < target
        invariant nsize >= size && Doubled(nsize, target) == Doubled(size, target)
        decreases target - nsize
      {
        nsize := nsize * 2;
      }
      if !mem {
        return false;
      }
      RingFull(olddata[..], onr, onw);
      size := nsize;
      data := new T[nsize];
      nextread, nextwrite := 0, 0;
      RingFull(data[..], 0, 0);
      var i: nat := onr;
      ghost var k := 0;
      while i != onw
        invariant Valid() && fresh(data) && data != olddata && size == nsize && i < osize
          && olddata[..] == old(data[..])
        invariant 0 <= k <= |was| < nsize
        invariant Contents() == was[..k] && was[k..] == Ring(olddata[..], i, onw)
        decreases |was| - k
      {
        RingPop(olddata[..], i, onw);
        RingFull(olddata[..], i, onw);
        NextMod(i, osize);
        var stored := AddTail(olddata[i], false);
        i := (i + 1) % osize;
        assert was[..k + 1] == was[..k] + [was[k]];
        assert was[k + 1..] == was[k..][1..];
        k := k + 1;
      }
      RingFull(olddata[..], i, onw);
      assert was[..k] == was;
      ok := true;
    }

    /** q_preallocate */
    method Preallocate(n: nat, mem: bool) returns (ok: bool)
      requires Valid()
      modifies this, data
      ensures Valid() && Contents() == old(Contents()) && (ok <==> n <= old(size) || mem)
      ensures size == if ok && n > old(size) then Doubled(old(size), n) else old(size)
      ensures data == old(data) || fresh(data)
    {
      ok := true;
      if n > size {
        ok := Grow(n, mem);
      }
    }

    /** q_addtail: at the end, or -- only if the ring was full and could not grow -- nothing changes. */
    method AddTail(x: T, mem: bool) returns (ok: bool)
      requires Valid()
      modifies this, data
      ensures Valid() && (ok <==> |old(Contents())| < old(size) - 1 || mem)
      ensures Contents() == if ok then old(Contents()) + [x] else old(Contents())
      ensures |old(Contents())| < old(size) - 1 ==> size == old(size) && data == old(data)
      ensures data == old(data) || fresh(data)
      ensures size >= old(size) && (!mem ==> size == old(size))
      decreases if |Contents()| == size - 1 then 2 else 0
    {
      RingFull(data[..], nextread, nextwrite);
      NextMod(nextwrite, size);
      var nextnext := (nextwrite + 1) % size;
      if nextnext == nextread {
        ok := Grow(size + 1, mem);
        if !ok {
          return;
        }
        RingFull(data[..], nextread, nextwrite);
        NextMod(nextwrite, size);
        nextnext := (nextwrite + 1) % size;
      }
      RingPush(data[..], nextread, nextwrite, x);
      ghost var before := data[..];
      data[nextwrite] := x;
      assert data[..] == before[nextwrite := x];
      nextwrite := nextnext;
      ok := true;
    }

    /** q_remhead */
    method RemHead() returns (x: T)
      requires Valid() && Contents() != []
      modifies this`nextread
      ensures Valid() && [x] + Contents() == old(Contents())
    {
      RingFull(data[..], nextread, nextwrite);
      RingPop(data[..], nextread, nextwrite);
      x := data[nextread];
      NextMod(nextread, size);
      nextread := (nextread + 1) % size;
    }
  }
}
