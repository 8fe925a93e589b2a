/** Error codes of os161/kern/include/kern/errno.h that the modelled code can return. */
module Errno {
  datatype Errno =
    EOK | ENOENT | ENOMEM | EBUSY | EEXIST | EISDIR | ENOTDIR | EINVAL | ENOSPC | ENAMETOOLONG | ENXIO | EIO | EAGAIN
}

/** Transfers between kernel buffers and the region a uio describes (os161/kern/userprog/uio.c),
    for kernel-space regions. */
module Uio {
  import opened Words

  datatype Rw = Read | Write

  lemma SpliceNothing(bytes: seq<byte>, at: nat)
    requires at <= |bytes|
    ensures Splice(bytes, at, []) == bytes
  {
  }

  method Memmove(dst: array<byte>, di: nat, src: array<byte>, si: nat, n: nat)
    requires dst != src && di + n <= dst.Length && si + n <= src.Length
    modifies dst
    ensures dst[..] == Splice(old(dst[..]), di, src[si..si + n])
  {
    forall k | 0 <= k < n {
      dst[di + k] := src[si + k];
    }
  }

  class UioObj {
    const rw: Rw
    /** The memory the iovec points into; `base` stands for iov_kbase. */
    const mem: array<byte>
    var base: nat
    var iovLen: nat
    var offset: nat
    var resid: nat

    /** What the code requires of a uio: the region can hold what remains to be transferred. */
    ghost predicate Valid()
      reads this
    {
      resid <= iovLen && base + iovLen <= mem.Length
    }

    /** mk_kuio */
    constructor (mem: array<byte>, pos: nat, rw: Rw)
      ensures Valid() && this.mem == mem && this.rw == rw
      ensures base == 0 && iovLen == mem.Length && offset == pos && resid == mem.Length
    {
      this.mem := mem;
      this.rw := rw;
      base := 0;
      iovLen := mem.Length;
      offset := pos;
      resid := mem.Length;
    }

    /** The uio has advanced by `n` bytes. */
    twostate predicate Advanced(n: nat)
      reads this
    {
      && Valid()
      && base == old(base) + n
      && offset == old(offset) + n
      && resid + n == old(resid)
      && iovLen + n == old(iovLen)
    }

    /** uiomove: `n` bytes of `ptr` from index `at`.  uio_resid does not limit the transfer, so the
        caller must ask for no more than it. */
    method Move(ptr: array<byte>, at: nat, n: nat)
      requires Valid() && n <= resid && at + n <= ptr.Length && ptr != mem
      modifies this, if rw.Read? then mem else ptr
      ensures Advanced(n)
      ensures rw.Read? ==> mem[..] == Splice(old(mem[..]), old(base), ptr[at..at + n])
      ensures rw.Write? ==> ptr[..] == Splice(old(ptr[..]), at, mem[old(base)..old(base) + n])
    {
      hide Splice;
      SpliceNothing(mem[..], base);
      SpliceNothing(ptr[..], at);
      assert ptr[at..at] == [] && mem[base..base] == [];
      var left, from := n, at;
      while left > 0 && resid > 0
        invariant 0 <= left <= n && from == at + n - left
        invariant Advanced(n - left) && left <= resid
        invariant rw.Read? ==> mem[..] == Splice(old(mem[..]), old(base), ptr[at..from])
        invariant rw.Write? ==> ptr[..] == Splice(old(ptr[..]), at, mem[old(base)..base])
      {
        var size := iovLen;
        if size > left {
          size := left;
        }
        if rw.Read? {
          assert ptr[at..from] + ptr[from..from + size] == ptr[at..from + size];
          SpliceTwice(old(mem[..]), old(base), ptr[at..from], ptr[from..from + size]);
        } else {
          assert mem[old(base)..base] + mem[base..base + size] == mem[old(base)..base + size];
          SpliceTwice(old(ptr[..]), at, mem[old(base)..base], mem[base..base + size]);
        }
        Chunk(ptr, from, size);
        from := from + size;
        left := left - size;
      }
    }

    /** One turn of the loop: a stretch of the current buffer. */
    method Chunk(ptr: array<byte>, from: nat, size: nat)
      requires Valid() && size <= resid && from + size <= ptr.Length && ptr != mem
      modifies this, if rw.Read? then mem else ptr
      ensures Advanced(size)
      ensures rw.Read? ==> mem[..] == Splice(old(mem[..]), old(base), ptr[from..from + size])
      ensures rw.Write? ==> ptr[..] == Splice(old(ptr[..]), from, mem[old(base)..old(base) + size])
    {
      hide Splice;
      if rw.Read? {
        Memmove(mem, base, ptr, from, size);
      } else {
        Memmove(ptr, from, mem, base, size);
      }
      base := base + size;
      iovLen := iovLen - size;
      resid := resid - size;
      offset := offset + size;
    }

    /** uiomovezeros */
    method MoveZeros(n: nat)
      requires Valid() && rw.Read? && n <= resid
      modifies this, mem
      ensures Advanced(n)
      ensures mem[..] == Splice(old(mem[..]), old(base), Zeros(n))
    {
      hide Splice;
      SpliceNothing(mem[..], base);
      assert Zeros(0) == [];
      var zeros := new byte[16](_ => 0);
      var left := n;
      while left > 0
        invariant 0 <= left <= n && Advanced(n - left)
        invariant zeros[..] == Zeros(16)
        invariant mem[..] == Splice(old(mem[..]), old(base), Zeros(n - left))
      {
        var amt := 16;
        if amt > left {
          amt := left;
        }
        Move(zeros, 0, amt);
        SpliceTwice(old(mem[..]), old(base), Zeros(n - left), Zeros(amt));
        assert zeros[0..amt] == Zeros(amt);
        assert Zeros(n - left) + Zeros(amt) == Zeros(n - left + amt);
        left := left - amt;
      }
    }
  }
}
