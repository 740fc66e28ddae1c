/**
 * Machine-level vocabulary shared by the firmware model: the C integer
 * widths the bridges use, unsigned wrap-around made explicit, and the two
 * byte-block primitives (memcpy, bzero) the bridges call.
 */
module Machine {
  const TWO8: nat := 0x100
  const TWO16: nat := 0x1_0000
  const TWO24: nat := 0x100_0000
  const TWO32: nat := 0x1_0000_0000
  const TWO64: nat := 0x1_0000_0000_0000_0000

  type u8 = x: int | 0 <= x < 0x100
  type u16 = x: int | 0 <= x < 0x1_0000
  type u32 = x: int | 0 <= x < 0x1_0000_0000
  type u64 = x: int | 0 <= x < 0x1_0000_0000_0000_0000

  /** `a + b` on uint64_t: the sum wraps modulo 2^64. */
  function Add64(a: u64, b: nat): (r: u64)
    ensures a + b < TWO64 ==> r == a + b
    ensures a + b >= TWO64 && b < TWO64 ==> r == a + b - TWO64
  {
    (a + b) % TWO64
  }

  /** `a - b` on uint64_t: a negative difference wraps to 2^64 + (a - b). */
  function Sub64(a: u64, b: u64): (r: u64)
    ensures b <= a ==> r == a - b
    ensures a < b ==> r == TWO64 + a - b
  {
    (a - b) % TWO64
  }

  /** Assigning a wider unsigned value to a uint32_t keeps its low 32 bits. */
  function Trunc32(x: nat): (r: u32)
    ensures x < TWO32 ==> r == x
  {
    x % TWO32
  }

  /** The byte string of `n` zero bytes (what bzero leaves behind). */
  function Zeros(n: nat): (z: seq<bv8>)
    ensures |z| == n
    ensures forall i :: 0 <= i < n ==> z[i] == 0
  {
    seq(n, _ => 0)
  }

  /** Reads two bytes as a little-endian 16-bit value. */
  function Le16(lo: u8, hi: u8): u16
  {
    lo + 0x100 * hi
  }

  /**
   * Overwriting `piece` at offset `|pre|` of `pre + rest[|pre|..]` extends
   * the prefix by the piece and keeps the rest of `rest` behind it.
   */
  lemma SpliceAfterPrefix(pre: seq<bv8>, piece: seq<bv8>, rest: seq<bv8>)
    requires |pre| + |piece| <= |rest|
    ensures var x := pre + rest[|pre|..];
            x[..|pre|] + piece + x[|pre| + |piece|..] == (pre + piece) + rest[|pre| + |piece|..]
  {
    var x := pre + rest[|pre|..];
    assert x[..|pre|] == pre;
    assert x[|pre| + |piece|..] == rest[|pre| + |piece|..];
  }

  /** The three parts of a concatenation are its slices at the parts' boundaries. */
  lemma ThreeSlices(a: seq<bv8>, b: seq<bv8>, c: seq<bv8>)
    ensures var s := a + b + c;
            s[..|a|] == a && s[|a|..|a| + |b|] == b && s[|a| + |b|..] == c
  {
  }

  /** A slice of a slice is a slice of the whole. */
  lemma SliceOfSlice(s: seq<bv8>, lo: nat, hi: nat, c: nat, d: nat)
    requires lo <= hi <= |s| && c <= d <= hi - lo
    ensures s[lo..hi][c..d] == s[lo + c..lo + d]
  {
    var t := s[lo..hi];
    assert forall x :: 0 <= x < d - c ==> t[c..d][x] == t[c + x] == s[lo + c + x];
  }

  /** memcpy(dst + dstOff, src + srcOff, len) between distinct buffers. */
  method CopyBytes(dst: array<bv8>, dstOff: nat, src: array<bv8>, srcOff: nat, len: nat)
    requires dst != src
    requires dstOff + len <= dst.Length && srcOff + len <= src.Length
    modifies dst
    ensures dst[..] == old(dst[..dstOff]) + src[srcOff..srcOff + len] + old(dst[dstOff + len..])
  {
    ghost var pre, piece, post := old(dst[..dstOff]), src[srcOff..srcOff + len], old(dst[dstOff + len..]);
    var i := 0;
    while i < len
      invariant 0 <= i <= len
      invariant forall x :: 0 <= x < dst.Length ==>
                  dst[x] == if dstOff <= x < dstOff + i then src[srcOff + x - dstOff] else old(dst[x])
    {
      dst[dstOff + i] := src[srcOff + i];
      i := i + 1;
    }
    assert dst[..] == pre + piece + post by {
      assert forall x :: 0 <= x < dst.Length ==> dst[..][x] == (pre + piece + post)[x];
    }
  }

  /** bzero(dst + off, len). */
  method ZeroBytes(dst: array<bv8>, off: nat, len: nat)
    requires off + len <= dst.Length
    modifies dst
    ensures dst[..] == old(dst[..off]) + Zeros(len) + old(dst[off + len..])
  {
    ghost var pre, post := old(dst[..off]), old(dst[off + len..]);
    var i := 0;
    while i < len
      invariant 0 <= i <= len
      invariant forall x :: 0 <= x < dst.Length ==> dst[x] == if off <= x < off + i then 0 else old(dst[x])
    {
      dst[off + i] := 0;
      i := i + 1;
    }
    assert dst[..] == pre + Zeros(len) + post by {
      assert forall x :: 0 <= x < dst.Length ==> dst[..][x] == (pre + Zeros(len) + post)[x];
    }
  }
}
