/**
 * The multi-instance frame layout both bridges use. A USB audio packet is
 * a sequence of 64-byte frames; each frame is the 32-byte block of
 * instance 0 followed by the 32-byte block of instance 1. Each instance
 * owns a ring of RingSize bytes, read or written block by block at its own
 * cursor, which wraps at the end of the ring.
 */
module Frames {
  import opened Machine
  import opened Layout

  /** A ring offset is a cursor when it lies inside the ring on a block boundary. */
  predicate CursorOk(p: int)
  {
    0 <= p && p + FrameLenPerInst <= RingSize && p % FrameLenPerInst == 0
  }

  /** Reducing modulo the ring size before adding changes nothing. */
  lemma ModShift(x: int, d: nat)
    requires x >= 0
    ensures (x % RingSize + d) % RingSize == (x + d) % RingSize
  {
    var q, r := x / RingSize, x % RingSize;
    assert x == RingSize * q + r;
    var s, t := (r + d) / RingSize, (r + d) % RingSize;
    assert r + d == RingSize * s + t;
    var u, v := (x + d) / RingSize, (x + d) % RingSize;
    assert x + d == RingSize * u + v;
    assert RingSize * (q + s - u) == v - t;
    NoSmallMultiple(q + s - u);
  }

  /** The only multiple of the ring size strictly between minus and plus the ring size is zero. */
  lemma NoSmallMultiple(m: int)
    requires 0 < RingSize * m + RingSize && RingSize * m < RingSize
    ensures m == 0
  {
  }

  /** Two offsets less than a ring apart fall on different ring positions. */
  lemma ModDistinct(a: int, b: int)
    requires 0 <= a < b < a + RingSize
    ensures a % RingSize != b % RingSize
  {
    var qa := a / RingSize;
    var qb := b / RingSize;
    assert a == RingSize * qa + a % RingSize;
    assert b == RingSize * qb + b % RingSize;
  }

  /** Reducing a block-aligned offset modulo the ring size keeps it block-aligned. */
  lemma ModKeepsAlignment(x: int)
    requires x >= 0 && x % FrameLenPerInst == 0
    ensures CursorOk(x % RingSize)
  {
    var q := x / RingSize;
    assert x == RingSize * q + x % RingSize;
    assert RingSize == FrameLenPerInst * 96;
    var a := x / FrameLenPerInst;
    assert x == FrameLenPerInst * a;
    assert x % RingSize == FrameLenPerInst * (a - 96 * q);
    assert a - 96 * q < 96;
  }

  /** The cursor after `f` blocks have been moved from cursor `p`: one block per frame, wrapping at the ring's end. */
  function Cursor(p: int, f: nat): (c: int)
    requires CursorOk(p)
    ensures CursorOk(c)
  {
    ModKeepsAlignment(p + FrameLenPerInst * f);
    (p + FrameLenPerInst * f) % RingSize
  }

  /** Moving the cursor one more block is the C update `(pos + block) % ring`. */
  lemma CursorStep(p: int, f: nat)
    requires CursorOk(p)
    ensures Cursor(p, f + 1) == (Cursor(p, f) + FrameLenPerInst) % RingSize
  {
    ModShift(p + FrameLenPerInst * f, FrameLenPerInst);
  }

  /** Within one lap of the ring, different frame counts give different cursors. */
  lemma CursorsDistinct(p: int, k1: nat, k2: nat)
    requires CursorOk(p)
    requires k1 < k2 < RingBlocks
    ensures Cursor(p, k1) != Cursor(p, k2)
  {
    assert FrameLenPerInst * k2 < FrameLenPerInst * k1 + RingSize by {
      assert FrameLenPerInst * (k2 - k1) < FrameLenPerInst * RingBlocks;
    }
    ModDistinct(p + FrameLenPerInst * k1, p + FrameLenPerInst * k2);
  }

  /** Byte `j` of instance `i`'s block of frame `k` lies inside frame `k`. */
  lemma OffsetInFrame(k: nat, i: nat, j: nat)
    requires i < InstNum && j < FrameLenPerInst
    ensures FrameLen * k <= FrameLen * k + FrameLenPerInst * i + j < FrameLen * k + FrameLen == FrameLen * (k + 1)
  {
  }

  /** The block of instance `inst` ends inside the frame. */
  lemma BlockFits(inst: nat)
    requires inst < InstNum
    ensures FrameLenPerInst * inst + FrameLenPerInst == FrameLenPerInst * (inst + 1) <= FrameLen
  {
  }

  /** An earlier frame ends no later than a later one begins. */
  lemma FrameBefore(k: nat, m: nat)
    requires k < m
    ensures FrameLen * (k + 1) <= FrameLen * m
  {
  }

  /** A length that is a multiple of the frame length is that many whole frames. */
  lemma WholeFrames(n: nat)
    requires n % FrameLen == 0
    ensures n == FrameLen * (n / FrameLen)
  {
  }

  /** Frame `f` of a packet of `frames` frames ends inside the packet. */
  lemma FrameFits(f: nat, frames: nat)
    requires f < frames
    ensures FrameLen * f + FrameLen == FrameLen * (f + 1) <= FrameLen * frames
  {
  }

  /** Ring contents of every instance and one cursor per instance. */
  ghost predicate Shaped(R: seq<seq<bv8>>, C: seq<int>)
  {
    |R| == InstNum && |C| == InstNum &&
    (forall i :: 0 <= i < InstNum ==> |R[i]| == RingSize) &&
    (forall i :: 0 <= i < InstNum ==> CursorOk(C[i]))
  }

  /** Every cursor of `C` moved on by `f` frames. */
  ghost function Advance(C: seq<int>, f: nat): (D: seq<int>)
    requires |C| == InstNum && forall i :: 0 <= i < InstNum ==> CursorOk(C[i])
    ensures |D| == InstNum
    ensures forall i :: 0 <= i < InstNum ==> D[i] == Cursor(C[i], f)
  {
    [Cursor(C[0], f), Cursor(C[1], f)]
  }

  /** The blocks of instances 0 .. n-1 read at cursors `C`, in instance order. */
  ghost function Frame(R: seq<seq<bv8>>, C: seq<int>, n: nat): (fr: seq<bv8>)
    requires Shaped(R, C) && n <= InstNum
    ensures |fr| == FrameLenPerInst * n
  {
    if n == 0 then []
    else Frame(R, C, n - 1) + R[n - 1][C[n - 1] .. C[n - 1] + FrameLenPerInst]
  }

  /** The first `f` frames read out of the rings from cursors `P` (the capture direction). */
  ghost function Deinterleave(R: seq<seq<bv8>>, P: seq<int>, f: nat): (out: seq<bv8>)
    requires Shaped(R, P)
    ensures |out| == FrameLen * f
  {
    if f == 0 then []
    else Deinterleave(R, P, f - 1) + Frame(R, Advance(P, f - 1), InstNum)
  }

  /** A destination buffer `O` after its first `f` frames were overwritten by the frames read out of the rings. */
  ghost function PulledInto(R: seq<seq<bv8>>, P: seq<int>, O: seq<bv8>, f: nat): (out: seq<bv8>)
    requires Shaped(R, P) && FrameLen * f <= |O|
    ensures |out| == |O|
  {
    Deinterleave(R, P, f) + O[FrameLen * f..]
  }

  /** Byte `j` of instance `i`'s block of a frame is byte `j` at that instance's cursor. */
  lemma {:induction false} FrameAt(R: seq<seq<bv8>>, C: seq<int>, n: nat, i: nat, j: nat)
    requires Shaped(R, C) && n <= InstNum
    requires i < n && j < FrameLenPerInst
    ensures FrameLenPerInst * i + j < |Frame(R, C, n)|
    ensures Frame(R, C, n)[FrameLenPerInst * i + j] == R[i][C[i] + j]
  {
    if i < n - 1 {
      FrameAt(R, C, n - 1, i, j);
    }
  }

  /**
   * Copying instance `inst`'s block over the bytes just behind the part of
   * the current frame already copied extends that part by the block.
   */
  lemma PulledBlock(D: seq<bv8>, R: seq<seq<bv8>>, C: seq<int>, inst: nat, O: seq<bv8>, before: seq<bv8>, after: seq<bv8>)
    requires Shaped(R, C) && inst < InstNum && |D| + FrameLen <= |O|
    requires before == D + Frame(R, C, inst) + O[|D| + FrameLenPerInst * inst..]
    requires after == before[..|D| + FrameLenPerInst * inst] + R[inst][C[inst] .. C[inst] + FrameLenPerInst]
                      + before[|D| + FrameLenPerInst * inst + FrameLenPerInst..]
    ensures after == D + Frame(R, C, inst + 1) + O[|D| + FrameLenPerInst * (inst + 1)..]
  {
    BlockFits(inst);
    var pre := D + Frame(R, C, inst);
    SpliceAfterPrefix(pre, R[inst][C[inst] .. C[inst] + FrameLenPerInst], O);
    assert D + Frame(R, C, inst + 1) == pre + R[inst][C[inst] .. C[inst] + FrameLenPerInst];
  }

  /** Reading one more frame appends that frame. */
  lemma DeinterleaveStep(R: seq<seq<bv8>>, P: seq<int>, f: nat)
    requires Shaped(R, P)
    ensures Deinterleave(R, P, f + 1) == Deinterleave(R, P, f) + Frame(R, Advance(P, f), InstNum)
  {
  }

  /** Reading one more frame leaves the bytes already read alone. */
  lemma DeinterleavePrefix(R: seq<seq<bv8>>, P: seq<int>, f: nat, b: nat)
    requires Shaped(R, P)
    requires 0 < f && b < FrameLen * (f - 1)
    ensures b < |Deinterleave(R, P, f)|
    ensures Deinterleave(R, P, f)[b] == Deinterleave(R, P, f - 1)[b]
  {
    assert Deinterleave(R, P, f) == Deinterleave(R, P, f - 1) + Frame(R, Advance(P, f - 1), InstNum);
  }

  /** The last frame read holds each instance's block at that instance's cursor. */
  lemma DeinterleaveLast(R: seq<seq<bv8>>, P: seq<int>, f: nat, i: nat, j: nat)
    requires Shaped(R, P)
    requires 0 < f && i < InstNum && j < FrameLenPerInst
    ensures FrameLen * (f - 1) + FrameLenPerInst * i + j < |Deinterleave(R, P, f)|
    ensures Deinterleave(R, P, f)[FrameLen * (f - 1) + FrameLenPerInst * i + j] == R[i][Cursor(P[i], f - 1) + j]
  {
    var prev := Deinterleave(R, P, f - 1);
    var last := Frame(R, Advance(P, f - 1), InstNum);
    assert Deinterleave(R, P, f) == prev + last;
    OffsetInFrame(f - 1, i, j);
    FrameAt(R, Advance(P, f - 1), InstNum, i, j);
    assert (prev + last)[FrameLen * (f - 1) + FrameLenPerInst * i + j] == last[FrameLenPerInst * i + j];
  }

  /**
   * Byte `j` of instance `i`'s block of frame `k` of the output is byte `j`
   * of that instance's ring at the cursor moved on by `k` frames.
   */
  lemma {:induction false} DeinterleaveAt(R: seq<seq<bv8>>, P: seq<int>, f: nat, k: nat, i: nat, j: nat)
    requires Shaped(R, P)
    requires k < f && i < InstNum && j < FrameLenPerInst
    ensures FrameLen * k + FrameLenPerInst * i + j < |Deinterleave(R, P, f)|
    ensures Deinterleave(R, P, f)[FrameLen * k + FrameLenPerInst * i + j] == R[i][Cursor(P[i], k) + j]
  {
    if k + 1 < f {
      OffsetInFrame(k, i, j);
      FrameBefore(k, f - 1);
      DeinterleaveAt(R, P, f - 1, k, i, j);
      DeinterleavePrefix(R, P, f, FrameLen * k + FrameLenPerInst * i + j);
    } else {
      DeinterleaveLast(R, P, f, i, j);
    }
  }

  /** Byte `j` of a frame's block for an instance is that byte of the frame. */
  lemma BlockAt(data: seq<bv8>, k: nat, inst: nat, j: nat)
    requires inst < InstNum && FrameLen * (k + 1) <= |data| && j < FrameLenPerInst
    ensures BlockOf(data, k, inst)[j] == data[FrameLen * k + FrameLenPerInst * inst + j]
  {
  }

  /** Byte `b` of a packet of `f` frames is byte `j` of instance `i`'s block of frame `k < f`. */
  lemma Decompose(b: nat, f: nat) returns (k: nat, i: nat, j: nat)
    requires b < FrameLen * f
    ensures b == FrameLen * k + FrameLenPerInst * i + j
    ensures k < f && i < InstNum && j < FrameLenPerInst
  {
    k := b / FrameLen;
    var r := b % FrameLen;
    assert b == FrameLen * k + r;
    i := r / FrameLenPerInst;
    j := r % FrameLenPerInst;
    assert r == FrameLenPerInst * i + j;
    FrameCountBelow(k, f);
  }

  /** A frame that starts before the end of `f` frames is one of them. */
  lemma FrameCountBelow(k: nat, f: nat)
    requires FrameLen * k < FrameLen * f
    ensures k < f
  {
  }

  /** `s` with `piece` written over it from offset `at`. */
  function Splice(s: seq<bv8>, at: nat, piece: seq<bv8>): (r: seq<bv8>)
    requires at + |piece| <= |s|
    ensures |r| == |s|
  {
    s[..at] + piece + s[at + |piece|..]
  }

  /**
   * Overwriting `piece` at offset `p` inside the window `[base, base + len)`
   * of `b` splices it into the window and leaves everything outside alone.
   */
  lemma SpliceInWindow(b: seq<bv8>, base: nat, len: nat, p: nat, piece: seq<bv8>)
    requires base + len <= |b| && p + |piece| <= len
    ensures var after := b[..base + p] + piece + b[base + p + |piece|..];
            after[base..base + len] == Splice(b[base..base + len], p, piece) &&
            after[..base] == b[..base] && after[base + len..] == b[base + len..]
  {
    var after := b[..base + p] + piece + b[base + p + |piece|..];
    var w := Splice(b[base..base + len], p, piece);
    assert forall x :: 0 <= x < len ==> after[base..base + len][x] == w[x] by {
      forall x | 0 <= x < len
        ensures after[base + x] == w[x]
      {
        SpliceAt(b[base..base + len], p, piece, x);
      }
    }
  }

  /** The block of instance `inst` in frame `k` of `data`. */
  function BlockOf(data: seq<bv8>, k: nat, inst: nat): (b: seq<bv8>)
    requires inst < InstNum && FrameLen * (k + 1) <= |data|
    ensures |b| == FrameLenPerInst
  {
    data[FrameLen * k + FrameLenPerInst * inst .. FrameLen * k + FrameLenPerInst * inst + FrameLenPerInst]
  }

  /** Ring `inst` after its blocks of the first `f` frames of `data` were written from cursor `p`. */
  ghost function WriteRing(ring: seq<bv8>, p: int, data: seq<bv8>, inst: nat, f: nat): (r: seq<bv8>)
    requires |ring| == RingSize && CursorOk(p) && inst < InstNum && FrameLen * f <= |data|
    ensures |r| == RingSize
  {
    if f == 0 then ring
    else Splice(WriteRing(ring, p, data, inst, f - 1), Cursor(p, f - 1), BlockOf(data, f - 1, inst))
  }

  /** Copying instance `inst`'s block of frame `f` over the ring at its cursor writes one more block. */
  lemma PushedBlock(ring: seq<bv8>, p: int, data: seq<bv8>, inst: nat, f: nat, before: seq<bv8>, after: seq<bv8>)
    requires |ring| == RingSize && CursorOk(p) && inst < InstNum && FrameLen * (f + 1) <= |data|
    requires before == WriteRing(ring, p, data, inst, f)
    requires after == Splice(before, Cursor(p, f), data[FrameLen * f + FrameLenPerInst * inst .. FrameLen * f + FrameLenPerInst * inst + FrameLenPerInst])
    ensures after == WriteRing(ring, p, data, inst, f + 1)
  {
  }

  /** All rings after the first `f` frames of `data` were written from cursors `P` (the playback direction). */
  ghost function Interleave(R: seq<seq<bv8>>, P: seq<int>, data: seq<bv8>, f: nat): (S: seq<seq<bv8>>)
    requires Shaped(R, P) && FrameLen * f <= |data|
    ensures Shaped(S, P)
    ensures forall i :: 0 <= i < InstNum ==> S[i] == WriteRing(R[i], P[i], data, i, f)
  {
    [WriteRing(R[0], P[0], data, 0, f), WriteRing(R[1], P[1], data, 1, f)]
  }

  /** Splicing leaves the bytes outside the piece alone and puts the piece in place. */
  lemma SpliceAt(s: seq<bv8>, at: nat, piece: seq<bv8>, q: nat)
    requires at + |piece| <= |s| && q < |s|
    ensures q < at || at + |piece| <= q ==> Splice(s, at, piece)[q] == s[q]
    ensures at <= q < at + |piece| ==> Splice(s, at, piece)[q] == piece[q - at]
  {
  }

  /** A byte of the block at one cursor lies outside the block at any other cursor. */
  lemma BlocksSeparated(c1: int, c2: int, j: nat)
    requires CursorOk(c1) && CursorOk(c2) && c1 != c2 && j < FrameLenPerInst
    ensures c1 + j < c2 || c2 + FrameLenPerInst <= c1 + j
  {
    var a1, a2 := c1 / FrameLenPerInst, c2 / FrameLenPerInst;
    assert c1 == FrameLenPerInst * a1;
    assert c2 == FrameLenPerInst * a2;
    if a1 < a2 {
      assert FrameLenPerInst * (a1 + 1) <= FrameLenPerInst * a2;
    } else {
      assert FrameLenPerInst * (a2 + 1) <= FrameLenPerInst * a1;
    }
  }

  /** Writing block `f - 1` leaves the bytes of earlier blocks of the same lap alone. */
  lemma WriteRingKeeps(ring: seq<bv8>, p: int, data: seq<bv8>, inst: nat, f: nat, k: nat, j: nat)
    requires |ring| == RingSize && CursorOk(p) && inst < InstNum && FrameLen * f <= |data|
    requires f <= RingBlocks
    requires k + 1 < f && j < FrameLenPerInst
    ensures FrameLen * (f - 1) <= |data|
    ensures WriteRing(ring, p, data, inst, f)[Cursor(p, k) + j] == WriteRing(ring, p, data, inst, f - 1)[Cursor(p, k) + j]
  {
    FrameBefore(f - 1, f);
    var prev := WriteRing(ring, p, data, inst, f - 1);
    var c := Cursor(p, f - 1);
    var block := BlockOf(data, f - 1, inst);
    var q := Cursor(p, k) + j;
    CursorsDistinct(p, k, f - 1);
    BlocksSeparated(Cursor(p, k), c, j);
    SpliceAt(prev, c, block, q);
  }

  /** Writing block `k` as the last of `f = k + 1` blocks puts that block of the data at its cursor. */
  lemma WriteRingLast(ring: seq<bv8>, p: int, data: seq<bv8>, inst: nat, f: nat, k: nat, j: nat)
    requires |ring| == RingSize && CursorOk(p) && inst < InstNum && FrameLen * f <= |data|
    requires k + 1 == f && j < FrameLenPerInst
    ensures WriteRing(ring, p, data, inst, f)[Cursor(p, k) + j] == data[FrameLen * k + FrameLenPerInst * inst + j]
  {
    var prev := WriteRing(ring, p, data, inst, k);
    var c := Cursor(p, k);
    var block := BlockOf(data, k, inst);
    assert WriteRing(ring, p, data, inst, f) == Splice(prev, c, block);
    SpliceAt(prev, c, block, c + j);
    BlockAt(data, k, inst, j);
  }

  /**
   * While the frames written fit into one lap of the ring, byte `j` at the
   * cursor of frame `k` holds byte `j` of that frame's block for the instance.
   */
  lemma {:induction false} WriteRingAt(ring: seq<bv8>, p: int, data: seq<bv8>, inst: nat, f: nat, k: nat, j: nat)
    requires |ring| == RingSize && CursorOk(p) && inst < InstNum && FrameLen * f <= |data|
    requires f <= RingBlocks
    requires k < f && j < FrameLenPerInst
    ensures WriteRing(ring, p, data, inst, f)[Cursor(p, k) + j] == data[FrameLen * k + FrameLenPerInst * inst + j]
  {
    if k + 1 < f {
      WriteRingKeeps(ring, p, data, inst, f, k, j);
      WriteRingAt(ring, p, data, inst, f - 1, k, j);
    } else {
      WriteRingLast(ring, p, data, inst, f, k, j);
    }
  }

  /** A byte outside every written block keeps its old value. */
  lemma {:induction false} WriteRingElsewhere(ring: seq<bv8>, p: int, data: seq<bv8>, inst: nat, f: nat, q: int)
    requires |ring| == RingSize && CursorOk(p) && inst < InstNum && FrameLen * f <= |data|
    requires 0 <= q < RingSize
    requires forall k :: 0 <= k < f ==> !(Cursor(p, k) <= q < Cursor(p, k) + FrameLenPerInst)
    ensures WriteRing(ring, p, data, inst, f)[q] == ring[q]
  {
    if f > 0 {
      WriteRingElsewhere(ring, p, data, inst, f - 1, q);
      assert !(Cursor(p, f - 1) <= q < Cursor(p, f - 1) + FrameLenPerInst);
    }
  }

  /**
   * Interleaving a packet into the rings and reading the same number of
   * frames back from the same cursors yields the packet again, as long as
   * the packet fits into one lap of the ring.
   */
  lemma RoundTrip(R: seq<seq<bv8>>, P: seq<int>, data: seq<bv8>, f: nat)
    requires Shaped(R, P) && FrameLen * f <= |data|
    requires f <= RingBlocks
    ensures Deinterleave(Interleave(R, P, data, f), P, f) == data[..FrameLen * f]
  {
    var S := Interleave(R, P, data, f);
    var out := Deinterleave(S, P, f);
    forall b | 0 <= b < FrameLen * f
      ensures out[b] == data[b]
    {
      var k, i, j := Decompose(b, f);
      DeinterleaveAt(S, P, f, k, i, j);
      WriteRingAt(R[i], P[i], data, i, f, k, j);
    }
  }
}
