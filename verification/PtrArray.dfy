/** The growable array of pointers (os161/kern/lib/array.c).  A null store is one of length 0; `mem` says
    whether kmalloc would give memory if the call asked for any. */
module PtrArray {

  /** The capacity array_preallocate settles on. */
  function Enlarged(max: nat, n: nat): (r: nat)
    ensures r >= n && r >= max
    decreases n - max
  {
    if n > max then Enlarged((max + 1) * 2, n) else max
  }

  class PtrArray<T(0)> {
    var num: nat
    var max: nat
    var v: array<T>

    ghost predicate Valid()
      reads this
    {
      num <= max == v.Length
    }

    ghost function Contents(): seq<T>
      reads this, v
      requires Valid()
    {
      v[..num]
    }

    constructor ()
      ensures Valid() && Contents() == [] && max == 0 && fresh(v)
    {
      num, max := 0, 0;
      v := new T[0];
    }

    /** array_preallocate: always takes a new store, even if the old one is large enough. */
    method Preallocate(n: nat, mem: bool) returns (ok: bool)
      requires Valid()
      modifies this
      ensures Valid() && ok == mem && Contents() == old(Contents()) && num == old(num)
      ensures max == if ok then Enlarged(old(max), n) else old(max)
      ensures if ok then fresh(v) else unchanged(this)
    {
      var newmax := max;
      while n > newmax
        invariant newmax >= max && Enlarged(newmax, n) == Enlarged(max, n)
        decreases n - newmax
      {
        newmax := (newmax + 1) * 2;
      }
      if !mem {
        return false;
      }
      var newv := new T[newmax];
      max := newmax;
      for i := 0 to num
        invariant newv[..i] == v[..i]
        modifies newv
      {
        newv[i] := v[i];
      }
      v := newv;
      ok := true;
    }

    /** array_setsize: the old elements, cut or followed by `n - num` arbitrary ones. */
    method SetSize(n: nat, mem: bool) returns (ok: bool)
      requires Valid()
      modifies this
      ensures Valid() && (ok <==> n <= old(max) || mem)
      ensures !ok ==> unchanged(this) && Contents() == old(Contents())
      ensures ok ==> num == n && forall i :: 0 <= i < n && i < old(num) ==> Contents()[i] == old(Contents())[i]
      ensures ok ==> max == if n == 0 && old(max) > 16 then 0 else Enlarged(old(max), n)
      ensures fresh(v) || v == old(v)
    {
      if n > max {
        ok := Preallocate(n, mem);
        if !ok {
          return;
        }
      } else if n == 0 && max > 16 {
        v := new T[0];
        max := 0;
      }
      num := n;
      ok := true;
    }

    /** array_add */
    method Add(x: T, mem: bool) returns (ok: bool)
      requires Valid()
      modifies this, v
      ensures Valid() && (ok <==> old(num) < old(max) || mem)
      ensures Contents() == if ok then old(Contents()) + [x] else old(Contents())
      ensures max == if ok then Enlarged(old(max), old(num) + 1) else old(max)
      ensures fresh(v) || v == old(v)
    {
      var ix := num;
      ok := SetSize(ix + 1, mem);
      if !ok {
        return;
      }
      v[ix] := x;
      assert v[..ix] == old(Contents());
    }

    /** array_remove: one element less, the order of the others kept. */
    method Remove(index: nat)
      requires Valid() && index < num
      modifies this`num, v
      ensures Valid() && Contents() == old(Contents())[..index] + old(Contents())[index + 1..]
    {
      forall i | index <= i < num - 1 {
        v[i] := v[i + 1];
      }
      num := num - 1;
    }
  }
}
