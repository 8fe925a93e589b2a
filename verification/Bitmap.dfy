/** The byte-array bitmap of os161/kern/lib/bitmap.c. */
module Bitmap {
  import opened Words
  import opened Bits

  /** Bit `i` of a byte string: bit `i % 8` of byte `i / 8`. */
  predicate IsSet(v: seq<byte>, i: nat)
    requires i < 8 * |v|
  {
    Bit(v[i / 8], i % 8)
  }

  lemma ByteSet(b: byte, k: nat)
    requires k < 8
    ensures Set(b, k) < 0x100 && Clear(b, k) < 0x100
  {
    assert Pow2(8) == 0x100;
    SetBounded(b, k, 8);
    ClearBounded(b, k, 8);
  }

  function Mark(v: seq<byte>, i: nat): (r: seq<byte>)
    requires i < 8 * |v|
    ensures |r| == |v|
  {
    ByteSet(v[i / 8], i % 8);
    v[i / 8 := Set(v[i / 8], i % 8)]
  }

  function Unmark(v: seq<byte>, i: nat): (r: seq<byte>)
    requires i < 8 * |v|
    ensures |r| == |v|
  {
    ByteSet(v[i / 8], i % 8);
    v[i / 8 := Clear(v[i / 8], i % 8)]
  }

  /** Marking sets exactly one bit of the whole string. */
  lemma MarkBits(v: seq<byte>, i: nat)
    requires i < 8 * |v|
    ensures forall j :: 0 <= j < 8 * |v| ==> (IsSet(Mark(v, i), j) <==> j == i || IsSet(v, j))
  {
    forall j | 0 <= j < 8 * |v|
      ensures IsSet(Mark(v, i), j) <==> j == i || IsSet(v, j)
    {
      SetBits(v[i / 8], i % 8, j % 8);
    }
  }

  /** Unmarking clears exactly one bit of the whole string. */
  lemma UnmarkBits(v: seq<byte>, i: nat)
    requires i < 8 * |v|
    ensures forall j :: 0 <= j < 8 * |v| ==> (IsSet(Unmark(v, i), j) <==> j != i && IsSet(v, j))
  {
    forall j | 0 <= j < 8 * |v|
      ensures IsSet(Unmark(v, i), j) <==> j != i && IsSet(v, j)
    {
      ClearBits(v[i / 8], i % 8, j % 8);
    }
  }

  /** Freeing a marked bit undoes marking it: the bytes are the ones from before. */
  lemma UnmarkUndoesMark(v: seq<byte>, i: nat)
    requires i < 8 * |v| && !IsSet(v, i)
    ensures Unmark(Mark(v, i), i) == v
  {
    var b, k := v[i / 8], i % 8;
    var c := Mark(v, i)[i / 8];
    assert Pow2(8) == 0x100;
    ByteSet(b, k);
    ByteSet(c, k);
    forall j | 0 <= j < 8
      ensures Bit(Clear(c, k), j) <==> Bit(b, j)
    {
      SetBits(b, k, j);
      ClearBits(c, k, j);
    }
    SameBits(Clear(c, k), b, 8);
  }

  lemma FullByte(s: seq<byte>, ix: nat)
    requires ix < |s| && s[ix] == 0xff
    ensures forall i :: 8 * ix <= i < 8 * ix + 8 ==> IsSet(s, i)
  {
    forall i | 8 * ix <= i < 8 * ix + 8
      ensures IsSet(s, i)
    {
      OnesHaveBits(8, i % 8);
    }
  }

  lemma InByte(s: seq<byte>, ix: nat, k: nat)
    requires ix < |s| && k < 8
    ensures Set(s[ix], k) < 0x100 && Mark(s, 8 * ix + k) == s[ix := Set(s[ix], k)]
    ensures IsSet(s, 8 * ix + k) <==> Bit(s[ix], k)
  {
    hide Set, Bit;
    ByteSet(s[ix], k);
    assert (8 * ix + k) / 8 == ix && (8 * ix + k) % 8 == k;
  }

  class BitmapObj {
    const nbits: nat
    const v: array<byte>

    /** The padding bits past `nbits` are always marked in use. */
    ghost predicate Valid()
      reads v
    {
      && v.Length == (nbits + 7) / 8
      && forall i :: nbits <= i < 8 * v.Length ==> IsSet(v[..], i)
    }

    constructor (n: nat)
      ensures nbits == n && fresh(v)
      ensures Valid()
      ensures forall i :: 0 <= i < nbits ==> !IsSet(v[..], i)
    {
      var words := (n + 7) / 8;
      nbits := n;
      v := new byte[words](_ => 0);
      new;
      forall i | 0 <= i < 8 * words
        ensures !IsSet(v[..], i)
      {
        ZeroBits(i % 8);
      }
      if nbits / 8 < words {
        var ix := words - 1;
        var overbits := nbits - ix * 8;
        for j := overbits to 8
          invariant v.Length == words
          invariant forall i :: 0 <= i < 8 * words ==> (IsSet(v[..], i) <==> nbits <= i < 8 * ix + j)
        {
          MarkBits(v[..], 8 * ix + j);
          ByteSet(v[ix], j);
          ghost var was := v[..];
          v[ix] := Set(v[ix], j);
          assert v[..] == Mark(was, 8 * ix + j);
        }
      }
    }

    /** Takes the least clear bit; fails exactly when there is none, changing nothing. */
    method Alloc() returns (ok: bool, index: nat)
      requires Valid()
      modifies v
      ensures Valid()
      ensures ok <==> exists i :: 0 <= i < nbits && !IsSet(old(v[..]), i)
      ensures ok ==> index < nbits && !IsSet(old(v[..]), index) && v[..] == Mark(old(v[..]), index)
      ensures ok ==> forall i :: 0 <= i < index ==> IsSet(old(v[..]), i)
      ensures !ok ==> v[..] == old(v[..])
    {
      hide Bit, Set, IsSet, Mark;
      ghost var was := v[..];
      index := 0;
      var maxix := (nbits + 7) / 8;
      for ix := 0 to maxix
        invariant v[..] == was
        invariant forall i :: 0 <= i < 8 * ix ==> IsSet(was, i)
      {
        if v[ix] != 0xff {
          assert Pow2(8) == 0x100;
          ghost var c := HasClearBit(v[ix], 8);
          for offset := 0 to 8
            invariant v[..] == was
            invariant offset <= c
            invariant forall i :: 0 <= i < 8 * ix + offset ==> IsSet(was, i)
          {
            InByte(was, ix, offset);
            if !Bit(v[ix], offset) {
              index := ix * 8 + offset;
              v[ix] := Set(v[ix], offset);
              MarkBits(was, index);
              return true, index;
            }
          }
          assert false;
        } else {
          FullByte(was, ix);
        }
      }
      ok := false;
    }

    /** Marks one bit; the code asserts that it was clear. */
    method MarkBit(index: nat)
      requires Valid() && index < nbits && !IsSet(v[..], index)
      modifies v
      ensures Valid() && v[..] == Mark(old(v[..]), index)
    {
      ghost var was := v[..];
      ByteSet(v[index / 8], index % 8);
      v[index / 8] := Set(v[index / 8], index % 8);
      assert v[..] == Mark(was, index);
      MarkBits(was, index);
    }

    /** Clears one bit; the code asserts that it was set. */
    method UnmarkBit(index: nat)
      requires Valid() && index < nbits && IsSet(v[..], index)
      modifies v
      ensures Valid() && v[..] == Unmark(old(v[..]), index)
    {
      ghost var was := v[..];
      ByteSet(v[index / 8], index % 8);
      v[index / 8] := Clear(v[index / 8], index % 8);
      assert v[..] == Unmark(was, index);
      UnmarkBits(was, index);
    }
  }
}
