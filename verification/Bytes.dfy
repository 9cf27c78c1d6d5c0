/** Bytes, little-endian words and in-place block writes, shared by every component. */
module Bytes {

  type byte = x: int | 0 <= x < 0x100
  type word = x: int | 0 <= x < 0x1_0000
  type dword = x: int | 0 <= x < 0x1_0000_0000

  /** The flat 32-bit address space of the x86 build. */
  const ADDRESS_SPACE := 0x1_0000_0000

  /** sizeof(IMAGE_DOS_HEADER), and where its field e_res stands. */
  const DOS_HEADER_SIZE: nat := 64
  const E_RES: nat := 28

  datatype Option<+T> = None | Some(value: T)

  /** A word stored at offset `at`, least significant byte first. */
  function U16At(bs: seq<byte>, at: nat): (w: word)
    requires at + 2 <= |bs|
  {
    var b0: int, b1: int := bs[at], bs[at + 1];
    b0 + 0x100 * b1
  }

  function U32At(bs: seq<byte>, at: nat): (d: dword)
    requires at + 4 <= |bs|
  {
    var b0: int, b1: int, b2: int, b3: int := bs[at], bs[at + 1], bs[at + 2], bs[at + 3];
    b0 + 0x100 * b1 + 0x1_0000 * b2 + 0x100_0000 * b3
  }

  function LE16(w: word): (bs: seq<byte>)
    ensures |bs| == 2 && U16At(bs, 0) == w
  {
    [w % 0x100, w / 0x100]
  }

  function LE32(d: dword): (bs: seq<byte>)
    ensures |bs| == 4 && U32At(bs, 0) == d
  {
    var low, high := d % 0x1_0000, d / 0x1_0000;
    [low % 0x100, low / 0x100, high % 0x100, high / 0x100]
  }

  /** Storing the value read from four bytes stores the same four bytes. */
  lemma {:induction false} LE32OfU32(bs: seq<byte>, at: nat)
    requires at + 4 <= |bs|
    ensures LE32(U32At(bs, at)) == bs[at..at + 4]
  {
    var d: int := U32At(bs, at);
    assert d / 0x100 == bs[at + 1] + 0x100 * (bs[at + 2] as int) + 0x1_0000 * (bs[at + 3] as int);
    assert d / 0x1_0000 == bs[at + 2] + 0x100 * (bs[at + 3] as int);
    assert d / 0x100_0000 == bs[at + 3];
  }

  lemma {:induction false} LE16OfU16(bs: seq<byte>, at: nat)
    requires at + 2 <= |bs|
    ensures LE16(U16At(bs, at)) == bs[at..at + 2]
  {
  }

  /** Two's-complement reduction of an exact integer to a 32-bit LONG. */
  function Wrap32(x: int): (r: int)
    ensures -0x8000_0000 <= r < 0x8000_0000
    ensures (x - r) % 0x1_0000_0000 == 0
  {
    (x + 0x8000_0000) % 0x1_0000_0000 - 0x8000_0000
  }

  /** The address an exact integer wraps to. */
  function WrapAddr(x: int): dword {
    x % 0x1_0000_0000
  }

  /** `mem` with `bs` written over the bytes from `at` on. */
  function Blit(mem: seq<byte>, at: nat, bs: seq<byte>): (r: seq<byte>)
    requires at + |bs| <= |mem|
    ensures |r| == |mem|
    ensures forall i :: 0 <= i < |mem| ==> r[i] == if at <= i < at + |bs| then bs[i - at] else mem[i]
  {
    mem[..at] + bs + mem[at + |bs|..]
  }

  lemma {:induction false} BlitReads(mem: seq<byte>, at: nat, bs: seq<byte>)
    requires at + |bs| <= |mem|
    ensures Blit(mem, at, bs)[at..at + |bs|] == bs
  {
  }

  lemma {:induction false} BlitFrame(mem: seq<byte>, at: nat, bs: seq<byte>, lo: nat, hi: nat)
    requires at + |bs| <= |mem| && lo <= hi <= |mem|
    requires hi <= at || at + |bs| <= lo
    ensures Blit(mem, at, bs)[lo..hi] == mem[lo..hi]
  {
  }

  /** Two blocks written one behind the other are one block. */
  lemma {:induction false} BlitTwice(mem: seq<byte>, at: nat, a: seq<byte>, b: seq<byte>, ab: seq<byte>)
    requires at + |a| + |b| <= |mem| && ab == a + b
    ensures Blit(Blit(mem, at, a), at + |a|, b) == Blit(mem, at, ab)
  {
  }

  lemma {:induction false} SliceOfSlice(s: seq<byte>, lo: nat, hi: nat, i: nat, j: nat)
    requires lo <= hi <= |s| && i <= j <= hi - lo
    ensures s[lo..hi][i..j] == s[lo + i..lo + j]
  {
    forall k | 0 <= k < j - i ensures s[lo..hi][i..j][k] == s[lo + i..lo + j][k] {
      assert s[lo..hi][i + k] == s[lo + (i + k)];
    }
  }
}
