/** Fixed-width integers, disk blocks and the big-endian word layout of on-disk structures
    (os161/kern/include/kern/sfs.h; the target is a big-endian MIPS). */
module Words {

  type byte = x: int | 0 <= x < 0x100
  type u16 = x: int | 0 <= x < 0x1_0000
  type u32 = x: int | 0 <= x < 0x1_0000_0000

  const BLOCKSIZE := 512
  const WORDS_PER_BLOCK := 128

  type Block = b: seq<byte> | |b| == BLOCKSIZE witness Zeros(BLOCKSIZE)

  function Zeros(n: nat): (r: seq<byte>)
    ensures |r| == n && forall k :: 0 <= k < n ==> r[k] == 0
  {
    seq(n, _ => 0)
  }

  /** Byte `i` (most significant first) of a word. */
  function ByteOf(w: u32, i: nat): byte
    requires i < 4
  {
    if i == 0 then w / 0x100 / 0x100 / 0x100
    else if i == 1 then w / 0x100 / 0x100 % 0x100
    else if i == 2 then w / 0x100 % 0x100
    else w % 0x100
  }

  function MakeWord(b0: byte, b1: byte, b2: byte, b3: byte): u32 {
    ((b0 * 0x100 + b1) * 0x100 + b2) * 0x100 + b3
  }

  function PutWords(ws: seq<u32>): (b: seq<byte>)
    ensures |b| == 4 * |ws|
  {
    seq(4 * |ws|, k requires 0 <= k < 4 * |ws| => ByteOf(ws[k / 4], k % 4))
  }

  function WordAt(b: seq<byte>, k: nat): u32
    requires 4 * k + 4 <= |b|
  {
    MakeWord(b[4 * k], b[4 * k + 1], b[4 * k + 2], b[4 * k + 3])
  }

  function GetWords(b: seq<byte>): (ws: seq<u32>)
    requires |b| % 4 == 0
    ensures |ws| == |b| / 4
    ensures forall k :: 0 <= k < |ws| ==> ws[k] == WordAt(b, k)
  {
    seq(|b| / 4, k requires 0 <= k < |b| / 4 => WordAt(b, k))
  }

  lemma WordOfBytes(w: u32)
    ensures MakeWord(ByteOf(w, 0), ByteOf(w, 1), ByteOf(w, 2), ByteOf(w, 3)) == w
  {
  }

  lemma BytesOfWord(b0: byte, b1: byte, b2: byte, b3: byte)
    ensures var w := MakeWord(b0, b1, b2, b3);
            ByteOf(w, 0) == b0 && ByteOf(w, 1) == b1 && ByteOf(w, 2) == b2 && ByteOf(w, 3) == b3
  {
    var h1 := b0 * 0x100 + b1;
    var h2 := h1 * 0x100 + b2;
    var w := h2 * 0x100 + b3;
    assert w / 0x100 == h2 && h2 / 0x100 == h1 && h1 / 0x100 == b0;
  }

  /** A word is stored most significant byte first. */
  lemma BytesAt(ws: seq<u32>, k: nat)
    requires k < |ws|
    ensures var b := PutWords(ws);
      ((b[4 * k] as int * 256 + b[4 * k + 1]) * 256 + b[4 * k + 2]) * 256 + b[4 * k + 3] == ws[k]
  {
    var b := PutWords(ws);
    assert b[4 * k] == ByteOf(ws[k], 0) && b[4 * k + 1] == ByteOf(ws[k], 1);
    assert b[4 * k + 2] == ByteOf(ws[k], 2) && b[4 * k + 3] == ByteOf(ws[k], 3);
  }

  /** Storing words and loading them back gives the same words. */
  lemma WordsRoundTrip(ws: seq<u32>)
    ensures GetWords(PutWords(ws)) == ws
  {
    hide ByteOf, MakeWord;
    var b := PutWords(ws);
    forall k | 0 <= k < |ws|
      ensures WordAt(b, k) == ws[k]
    {
      assert b[4 * k] == ByteOf(ws[k], 0);
      assert b[4 * k + 1] == ByteOf(ws[k], 1);
      assert b[4 * k + 2] == ByteOf(ws[k], 2);
      assert b[4 * k + 3] == ByteOf(ws[k], 3);
      WordOfBytes(ws[k]);
    }
  }

  /** Loading bytes as words and storing them back gives the same bytes. */
  lemma BytesRoundTrip(b: seq<byte>)
    requires |b| % 4 == 0
    ensures PutWords(GetWords(b)) == b
  {
    hide ByteOf, MakeWord;
    var ws := GetWords(b);
    forall i | 0 <= i < |b|
      ensures PutWords(ws)[i] == b[i]
    {
      var k := i / 4;
      assert ws[k] == WordAt(b, k);
      BytesOfWord(b[4 * k], b[4 * k + 1], b[4 * k + 2], b[4 * k + 3]);
      assert i == 4 * k || i == 4 * k + 1 || i == 4 * k + 2 || i == 4 * k + 3;
    }
  }

  lemma WordAtPrefix(b: seq<byte>, c: seq<byte>, k: nat)
    requires 4 * k + 4 <= |b|
    ensures WordAt(b + c, k) == WordAt(b, k)
  {
  }

  lemma ZeroWords(n: nat)
    ensures forall k :: 0 <= k < n ==> GetWords(Zeros(4 * n))[k] == 0
  {
    forall k | 0 <= k < n
      ensures WordAt(Zeros(4 * n), k) == 0
    {
    }
  }

  /** `bytes` with `data` written over it at offset `at`. */
  function Splice(bytes: seq<byte>, at: nat, data: seq<byte>): (r: seq<byte>)
    requires at + |data| <= |bytes|
    ensures |r| == |bytes|
  {
    bytes[..at] + data + bytes[at + |data|..]
  }

  /** Writing two adjacent strings one after the other writes their concatenation. */
  lemma SpliceTwice(bytes: seq<byte>, at: nat, d: seq<byte>, e: seq<byte>)
    requires at + |d| + |e| <= |bytes|
    ensures Splice(Splice(bytes, at, d), at + |d|, e) == Splice(bytes, at, d + e)
  {
  }
}
