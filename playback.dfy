/**
 * The playback bridge (USB isochronous OUT in, serial audio out). The USB
 * OUT handler pushes each received packet into the two instance rings with
 * `Push`, frame by frame; transmit DMA plays the rings slot by slot and
 * reports each finished slot through `Callback`. The host is told how fast
 * to send through an explicit feedback value: a little slower when the
 * rings run full, a little faster when they run empty.
 */
module Playback {
  import opened Machine
  import opened Layout
  import opened Fill
  import opened Frames

  /** Transmit-side aliases of the shared geometry. */
  const TxBuffNum: nat := 4
  const TxBuffSize: nat := 1536

  /** Feedback thresholds (in packets of backlog) and step. */
  const TxFeedbackThUp: nat := 9
  const TxFeedbackThDown: nat := 4
  const TxFeedbackThStep: bv32 := 1

  /** The nominal feedback: 6 samples per microframe with 13 fractional bits. */
  const TxFeedbackNormal: bv32 := 0xC000

  /** Slot index at which the USB side may start pushing data. */
  const TxUsbStartIndex: nat := 3

  lemma TxConstantFormulas()
    ensures TxBuffNum == BuffNum && TxBuffSize == BuffSize
    ensures TxFeedbackNormal as int == (HsIsoOutPacketSize / (AudioFormatChannels * AudioFormatSize)) * 0x2000
    ensures TxUsbStartIndex == TxBuffNum / 2 + 1
  {
  }

  /** The feedback value for a backlog of `fill` packets. */
  function FeedbackFor(fill: u32): (fb: bv32)
    ensures fb < TxFeedbackNormal <==> fill >= TxFeedbackThUp
    ensures fb > TxFeedbackNormal <==> fill <= TxFeedbackThDown
    ensures TxFeedbackNormal - TxFeedbackThStep <= fb <= TxFeedbackNormal + TxFeedbackThStep
  {
    if fill >= TxFeedbackThUp then TxFeedbackNormal - TxFeedbackThStep
    else if fill <= TxFeedbackThDown then TxFeedbackNormal + TxFeedbackThStep
    else TxFeedbackNormal
  }

  /**
   * The feedback value for the current counters, from the corrected fill
   * level: it agrees with the as-written computation while the producer is
   * ahead, and asks the host to speed up once the consumer has run ahead.
   */
  function ExplicitFeedback(write: u64, read: u64): (fb: bv32)
    ensures read <= write ==> fb == FeedbackFor(FillPacketsAsWritten(write, read))
    ensures write < read ==> fb == TxFeedbackNormal + TxFeedbackThStep
    ensures TxFeedbackNormal - TxFeedbackThStep <= fb <= TxFeedbackNormal + TxFeedbackThStep
  {
    FeedbackFor(FillPackets(write, read))
  }

  /**
   * In terms of the backlog `write - read` in bytes: at least nine packets
   * buffered asks the host to slow down, fewer than five (including none at
   * all, and the consumer being ahead) asks it to speed up, and anything in
   * between keeps the nominal rate.
   */
  lemma ExplicitFeedbackSteers(write: u64, read: u64)
    requires write < read || write - read < HsIsoOutPacketSize * TWO32
    ensures (read <= write && write - read >= TxFeedbackThUp * HsIsoOutPacketSize) ==>
              ExplicitFeedback(write, read) == TxFeedbackNormal - TxFeedbackThStep
    ensures (write < read || write - read < (TxFeedbackThDown + 1) * HsIsoOutPacketSize) ==>
              ExplicitFeedback(write, read) == TxFeedbackNormal + TxFeedbackThStep
    ensures (read <= write && (TxFeedbackThDown + 1) * HsIsoOutPacketSize <= write - read < TxFeedbackThUp * HsIsoOutPacketSize) ==>
              ExplicitFeedback(write, read) == TxFeedbackNormal
  {
    if read <= write {
      var d := write - read;
      assert d == HsIsoOutPacketSize * (d / HsIsoOutPacketSize) + d % HsIsoOutPacketSize;
    }
  }

  /** A fuller ring never asks the host for more data. */
  lemma ExplicitFeedbackAntitone(w1: u64, w2: u64, read: u64)
    requires w1 <= w2 && w2 - read < HsIsoOutPacketSize * TWO32
    ensures ExplicitFeedback(w2, read) <= ExplicitFeedback(w1, read)
  {
    FillPacketsMonotone(w1, w2, read);
  }

  /** The scalar state of the bridge. */
  datatype TxCtx = TxCtx(nextBufIndex: nat, i2sStarted: bool, usbStarted: bool, dataIsValid: bool,
                         readCount: u64, writeCount: u64, feedback: bv32)

  /** The state `Start` leaves behind. */
  const Started: TxCtx := TxCtx(0, true, false, false, 0, 0, TxFeedbackNormal)

  /** A push is dropped while USB has not started and DMA is not at the start slot. */
  predicate Gated(c: TxCtx)
  {
    !c.usbStarted && c.nextBufIndex != TxUsbStartIndex
  }

  /** Scalar state after a push of `size` bytes. */
  function AfterPush(c: TxCtx, size: nat): TxCtx
  {
    if Gated(c) then c
    else
      var w := Add64(c.writeCount, size);
      c.(usbStarted := true, writeCount := w, feedback := ExplicitFeedback(w, c.readCount))
  }

  /** Scalar state after a DMA slot finished playing. */
  function AfterCallback(c: TxCtx): TxCtx
  {
    var idx := (c.nextBufIndex + 1) % TxBuffNum;
    if c.dataIsValid then c.(nextBufIndex := idx, readCount := Add64(c.readCount, TxBuffSize))
    else if c.usbStarted && idx == 0 then c.(nextBufIndex := idx, dataIsValid := true)
    else c.(nextBufIndex := idx)
  }

  /** `k` slot completions in a row. */
  function Callbacks(c: TxCtx, k: nat): TxCtx
  {
    if k == 0 then c else AfterCallback(Callbacks(c, k - 1))
  }

  /**
   * From a fresh start, pushes are dropped until DMA has finished three
   * slots; nothing but the slot index moves in the meantime.
   */
  lemma {:induction false} StartUp(k: nat)
    requires k <= TxUsbStartIndex
    ensures Callbacks(Started, k) == Started.(nextBufIndex := k)
    ensures Gated(Callbacks(Started, k)) <==> k < TxUsbStartIndex
  {
    if k > 0 {
      StartUp(k - 1);
    }
  }

  /** Once USB has started, pushes are never dropped again, and callbacks keep it started. */
  lemma StaysStarted(c: TxCtx, size: nat)
    requires c.usbStarted
    ensures !Gated(c) && AfterPush(c, size).usbStarted && AfterCallback(c).usbStarted
  {
  }

  /**
   * The data becomes valid on the first wrap of the slot index after USB
   * started, and that slot is not counted as read; from then on every
   * slot counts.
   */
  lemma DataBecomesValid(c: TxCtx)
    requires c.usbStarted && !c.dataIsValid && c.nextBufIndex < TxBuffNum
    ensures AfterCallback(c).dataIsValid <==> c.nextBufIndex == TxBuffNum - 1
    ensures AfterCallback(c).readCount == c.readCount
    ensures AfterCallback(c).dataIsValid ==> AfterCallback(AfterCallback(c)).readCount == Add64(c.readCount, TxBuffSize)
  {
  }

  /** Callbacks count reads only while the data is valid, and never touch the write side. */
  lemma CallbackCountsReads(c: TxCtx)
    ensures AfterCallback(c).readCount == (if c.dataIsValid then Add64(c.readCount, TxBuffSize) else c.readCount)
    ensures AfterCallback(c).writeCount == c.writeCount && AfterCallback(c).feedback == c.feedback
    ensures AfterCallback(c).usbStarted == c.usbStarted && AfterCallback(c).i2sStarted == c.i2sStarted
  {
  }

  /**
   * As written, a starved ring asks the host to slow down: USB opens the
   * stream with one small packet, DMA then plays two slots (the first only
   * marks the data valid, the second counts 1536 bytes as read), and the
   * next 384-byte packet leaves the consumer ahead of the producer. The
   * wrapped fill level reads as full, so the feedback drops below nominal
   * where an empty ring should raise it.
   */
  lemma StarvedPlaybackSlowsDownAsWritten()
    ensures var c := AfterPush(Callbacks(AfterPush(Callbacks(Started, 3), 384), 2), 384);
            c.readCount == 1536 && c.writeCount == 768 &&
            FeedbackFor(FillPacketsAsWritten(c.writeCount, c.readCount)) == TxFeedbackNormal - TxFeedbackThStep &&
            c.feedback == TxFeedbackNormal + TxFeedbackThStep
  {
    StartUp(3);
    var c1 := AfterPush(Callbacks(Started, 3), 384);
    assert c1 == TxCtx(3, true, true, false, 0, 384, TxFeedbackNormal + TxFeedbackThStep);
    assert Callbacks(c1, 1) == TxCtx(0, true, true, true, 0, 384, TxFeedbackNormal + TxFeedbackThStep);
    assert Callbacks(c1, 2) == TxCtx(1, true, true, true, 1536, 384, TxFeedbackNormal + TxFeedbackThStep);
    assert FillPacketsAsWritten(768, 1536) == 2863311528;
  }

  /** With the saturating fill level, a consumer that has caught up always asks the host to speed up. */
  lemma StarvedPlaybackSpeedsUp(write: u64, read: u64)
    requires write <= read
    ensures ExplicitFeedback(write, read) == TxFeedbackNormal + TxFeedbackThStep
  {
  }

  /**
   * The high-speed feedback bytes: the value `n` has 13 fractional bits and
   * is sent in 16.16 format, the fraction shifted up by three into bytes 0-1
   * and the integer part's 12 bits into bytes 2-3, little-endian.
   */
  function HsFeedbackBytes(n: bv32): (m: seq<bv8>)
    ensures |m| == 4
  {
    [(((n & 0x1FFF) << 3) & 0xFF) as bv8,
     ((((n & 0x1FFF) << 3) >> 8) & 0xFF) as bv8,
     (((n & 0x01FFE000) >> 13) & 0xFF) as bv8,
     (((n & 0x01FFE000) >> 21) & 0xFF) as bv8]
  }

  /** The full-speed feedback bytes: `n` shifted left by four (10.14 format), the low three bytes, little-endian. */
  function FsFeedbackBytes(n: bv32): (m: seq<bv8>)
    ensures |m| == 3
  {
    [((n << 4) & 0xFF) as bv8,
     (((n << 4) >> 8) & 0xFF) as bv8,
     (((n << 4) >> 16) & 0xFF) as bv8]
  }

  /** Four bytes read as a little-endian 32-bit word. */
  function Le32(m: seq<bv8>): bv32
    requires |m| == 4
  {
    (m[0] as bv32) | ((m[1] as bv32) << 8) | ((m[2] as bv32) << 16) | ((m[3] as bv32) << 24)
  }

  /**
   * The high-speed word is the 16.16 form of the value: its integer half
   * is the value's integer part (12 bits) and its fraction half the
   * value's 13-bit fraction scaled to 16 bits. A value below 2^25 is
   * recovered from the four bytes.
   */
  lemma HsFeedbackRoundTrip(n: bv32)
    ensures Le32(HsFeedbackBytes(n)) == (((n >> 13) & 0xFFF) << 16) | ((n & 0x1FFF) << 3)
    ensures n < 0x0200_0000 ==> ((Le32(HsFeedbackBytes(n)) >> 16) << 13) | ((Le32(HsFeedbackBytes(n)) & 0xFFFF) >> 3) == n
  {
  }

  /** The full-speed bytes are the low 24 bits of the value shifted into 10.14 format; a value below 2^20 is recovered from them. */
  lemma FsFeedbackRoundTrip(n: bv32)
    ensures var m := FsFeedbackBytes(n);
            (m[0] as bv32) | ((m[1] as bv32) << 8) | ((m[2] as bv32) << 16) == (n << 4) & 0xFF_FFFF
    ensures var m := FsFeedbackBytes(n);
            n < 0x10_0000 ==> ((m[0] as bv32) | ((m[1] as bv32) << 8) | ((m[2] as bv32) << 16)) >> 4 == n
  {
  }

  /**
   * The nominal feedback encodes 48 kHz: 6 samples per 125 us microframe at
   * high speed (6.0 in 16.16) and 48 samples per 1 ms frame at full speed
   * (48.0 in 10.14).
   */
  lemma NominalFeedbackIs48kHz()
    ensures Le32(HsFeedbackBytes(TxFeedbackNormal)) == 6 << 16
    ensures FsFeedbackBytes(TxFeedbackNormal) == [0x00, 0x00, 0x0C]
    ensures (0x0C as bv32) << 16 == 48 << 14
  {
  }

  /** The playback bridge's buffers, cursors and scalar state. */
  class TxBridge {
    /** The transmit rings of all instances back to back, instance `i` from `RingBase(i)`. */
    const buff: array<bv8>
    /** One write cursor per instance. */
    const pos: array<int>
    /** The four bytes handed to the feedback endpoint. */
    const feedbackBuffer: array<bv8>
    var nextBufIndex: nat
    var i2sStarted: bool
    var usbStarted: bool
    var dataIsValid: bool
    var readCount: u64
    var writeCount: u64
    var feedback: bv32

    /** The rings, the cursors and the feedback buffer have the sizes the firmware declares. */
    predicate Sized()
    {
      buff.Length == RingsSize && pos.Length == InstNum && feedbackBuffer.Length == 4 && buff != feedbackBuffer
    }

    ghost predicate Valid()
      reads this, pos
    {
      Sized() && CursorOk(pos[0]) && CursorOk(pos[1]) && nextBufIndex < TxBuffNum
    }

    ghost function Ctx(): TxCtx
      reads this
    {
      TxCtx(nextBufIndex, i2sStarted, usbStarted, dataIsValid, readCount, writeCount, feedback)
    }

    /** Ring contents, one byte string per instance. */
    ghost function Rings(): (R: seq<seq<bv8>>)
      requires buff.Length == RingsSize
      reads buff
      ensures |R| == InstNum
      ensures forall i :: 0 <= i < InstNum ==> R[i] == buff[RingBase(i) .. RingBase(i) + RingSize]
    {
      [buff[..RingSize], buff[RingSize..]]
    }

    ghost function Pos(): (P: seq<int>)
      requires pos.Length == InstNum
      reads pos
      ensures |P| == InstNum
    {
      pos[..]
    }

    /** The statically allocated (zero-initialised) state before any start. */
    constructor ()
      ensures Valid() && fresh(buff) && fresh(pos) && fresh(feedbackBuffer)
      ensures Ctx() == TxCtx(0, false, false, false, 0, 0, 0)
      ensures Rings() == [Zeros(RingSize), Zeros(RingSize)] && Pos() == [0, 0]
      ensures feedbackBuffer[..] == Zeros(4)
    {
      buff := new bv8[RingsSize](_ => 0);
      pos := new int[InstNum](_ => 0);
      feedbackBuffer := new bv8[4](_ => 0);
      nextBufIndex, i2sStarted, usbStarted, dataIsValid := 0, false, false, false;
      readCount, writeCount, feedback := 0, 0, 0;
      new;
      assert buff[..RingSize] == Zeros(RingSize) && buff[RingSize..] == Zeros(RingSize);
      assert pos[..] == [0, 0];
    }

    /** Recomputes the feedback value from the counters; nothing else changes. */
    method SetFeedback()
      modifies this
      ensures feedback == ExplicitFeedback(writeCount, readCount)
      ensures Ctx() == old(Ctx()).(feedback := feedback)
    {
      var diff := FillPackets(writeCount, readCount);
      if diff >= TxFeedbackThUp {
        feedback := TxFeedbackNormal - TxFeedbackThStep;
      } else if diff <= TxFeedbackThDown {
        feedback := TxFeedbackNormal + TxFeedbackThStep;
      } else {
        feedback := TxFeedbackNormal;
      }
    }

    /**
     * Packs the feedback value for the bus `speed` into the feedback buffer
     * and returns the buffer read as a 32-bit word. At full speed the fourth
     * byte keeps whatever it held before.
     */
    method GetFeedback(highSpeed: bool) returns (word: bv32)
      requires Sized()
      modifies feedbackBuffer
      ensures highSpeed ==> feedbackBuffer[..] == HsFeedbackBytes(feedback)
      ensures !highSpeed ==> feedbackBuffer[..] == FsFeedbackBytes(feedback) + [old(feedbackBuffer[3])]
      ensures word == Le32(feedbackBuffer[..])
    {
      var m := if highSpeed then HsFeedbackBytes(feedback) else FsFeedbackBytes(feedback);
      feedbackBuffer[0], feedbackBuffer[1], feedbackBuffer[2] := m[0], m[1], m[2];
      if highSpeed {
        feedbackBuffer[3] := m[3];
      }
      assert feedbackBuffer[..] == [feedbackBuffer[0], feedbackBuffer[1], feedbackBuffer[2], feedbackBuffer[3]];
      word := Le32(feedbackBuffer[..]);
    }

    /** Zeroes the scalar state, the cursors and the rings, then arms transmit DMA. */
    method Start()
      requires Valid()
      modifies this, buff, pos
      ensures Valid() && Ctx() == Started
      ensures Rings() == [Zeros(RingSize), Zeros(RingSize)] && Pos() == [0, 0]
    {
      nextBufIndex, readCount, dataIsValid, usbStarted := 0, 0, false, false;
      readCount, writeCount := 0, 0;
      feedback := TxFeedbackNormal;
      for inst := 0 to InstNum
        invariant Ctx() == Started.(i2sStarted := i2sStarted)
        invariant forall i :: 0 <= i < inst ==> pos[i] == 0
        invariant forall i :: inst <= i < InstNum ==> CursorOk(pos[i])
        invariant forall x :: 0 <= x < RingsSize && (x < RingSize ==> 0 < inst) && (RingSize <= x ==> 1 < inst) ==> buff[x] == 0
      {
        pos[inst] := 0;
        ZeroBytes(buff, RingBase(inst), RingSize);
      }
      assert Rings() == [Zeros(RingSize), Zeros(RingSize)] by {
        assert buff[..RingSize] == Zeros(RingSize);
        assert buff[RingSize..] == Zeros(RingSize);
      }
      assert Pos() == [0, 0];
      i2sStarted := true;
    }

    /** Aborts transmit DMA; counters, cursors and rings are left as they are. */
    method Stop()
      modifies this
      ensures Ctx() == old(Ctx()).(i2sStarted := false)
    {
      i2sStarted := false;
    }

    /** A transmit DMA slot finished playing. */
    method Callback()
      requires Valid()
      modifies this
      ensures Valid() && Ctx() == AfterCallback(old(Ctx()))
    {
      nextBufIndex := (nextBufIndex + 1) % TxBuffNum;
      if dataIsValid {
        readCount := Add64(readCount, TxBuffSize);
      } else if usbStarted && nextBufIndex == 0 {
        dataIsValid := true;
      }
    }

    /** Takes one received OUT packet of `size` bytes from `usbBuffer` into the rings. */
    method Push(usbBuffer: array<bv8>, size: nat)
      requires Valid() && usbBuffer != buff
      requires size % FrameLen == 0 && size <= usbBuffer.Length
      modifies this, buff, pos
      ensures Valid() && Ctx() == AfterPush(old(Ctx()), size)
      ensures Gated(old(Ctx())) ==> Rings() == old(Rings()) && Pos() == old(Pos())
      ensures !Gated(old(Ctx())) ==>
                Rings() == Interleave(old(Rings()), old(Pos()), usbBuffer[..], size / FrameLen) &&
                Pos() == Advance(old(Pos()), size / FrameLen)
    {
      if !usbStarted && nextBufIndex != TxUsbStartIndex {
        return;
      }
      usbStarted := true;
      WholeFrames(size);
      PushFrames(usbBuffer, size / FrameLen);
      writeCount := Add64(writeCount, size);
      SetFeedback();
    }

    /** Copies `frames` frames from `usbBuffer` into the rings, advancing the cursors. */
    method PushFrames(usbBuffer: array<bv8>, frames: nat)
      requires Valid() && usbBuffer != buff
      requires FrameLen * frames <= usbBuffer.Length
      modifies buff, pos
      ensures Valid()
      ensures Rings() == Interleave(old(Rings()), old(Pos()), usbBuffer[..], frames)
      ensures Pos() == Advance(old(Pos()), frames)
    {
      ghost var R := Rings();
      ghost var P := Pos();
      ghost var data := usbBuffer[..];
      assert Shaped(R, P);
      var k := 0;
      for f := 0 to frames
        invariant k == FrameLen * f
        invariant pos[0] == Cursor(P[0], f) && pos[1] == Cursor(P[1], f)
        invariant Rings() == Interleave(R, P, data, f)
      {
        FrameFits(f, frames);
        PushFrame(usbBuffer, k, R, P, f);
        k := k + FrameLen;
      }
      assert Pos() == Advance(P, frames);
    }

    /** Copies frame `f` of `usbBuffer` (at offset `k`) into the rings, one block per instance. */
    method PushFrame(usbBuffer: array<bv8>, k: nat, ghost R: seq<seq<bv8>>, ghost P: seq<int>, ghost f: nat)
      requires Sized() && usbBuffer != buff
      requires Shaped(R, P) && k == FrameLen * f && k + FrameLen <= usbBuffer.Length
      requires Rings() == Interleave(R, P, usbBuffer[..], f)
      requires pos[0] == Cursor(P[0], f) && pos[1] == Cursor(P[1], f)
      modifies buff, pos
      ensures Rings() == Interleave(R, P, usbBuffer[..], f + 1)
      ensures pos[0] == Cursor(P[0], f + 1) && pos[1] == Cursor(P[1], f + 1)
    {
      for inst := 0 to InstNum
        invariant pos[0] == Cursor(P[0], if 0 < inst then f + 1 else f)
        invariant pos[1] == Cursor(P[1], if 1 < inst then f + 1 else f)
        invariant Rings()[0] == WriteRing(R[0], P[0], usbBuffer[..], 0, if 0 < inst then f + 1 else f)
        invariant Rings()[1] == WriteRing(R[1], P[1], usbBuffer[..], 1, if 1 < inst then f + 1 else f)
      {
        ghost var before := Rings()[inst];
        BlockFits(inst);
        PushBlock(usbBuffer, k + FrameLenPerInst * inst, inst);
        PushedBlock(R[inst], P[inst], usbBuffer[..], inst, f, before, Rings()[inst]);
        CursorStep(P[inst], f);
      }
    }

    /** Copies the 32 bytes at offset `off` of `usbBuffer` into ring `inst` at its cursor and advances that cursor. */
    method PushBlock(usbBuffer: array<bv8>, off: nat, inst: nat)
      requires Sized() && usbBuffer != buff
      requires inst < InstNum && CursorOk(pos[inst]) && off + FrameLenPerInst <= usbBuffer.Length
      modifies buff, pos
      ensures Rings()[inst] == Splice(old(Rings()[inst]), old(pos[inst]), usbBuffer[off .. off + FrameLenPerInst])
      ensures Rings()[1 - inst] == old(Rings()[1 - inst])
      ensures pos[inst] == (old(pos[inst]) + FrameLenPerInst) % RingSize
      ensures pos[1 - inst] == old(pos[1 - inst])
    {
      ghost var before := buff[..];
      CopyBytes(buff, RingBase(inst) + pos[inst], usbBuffer, off, FrameLenPerInst);
      SpliceInWindow(before, RingBase(inst), RingSize, pos[inst], usbBuffer[off .. off + FrameLenPerInst]);
      if inst == 0 {
        assert buff[RingSize..] == before[RingSize..];
      } else {
        assert buff[..RingSize] == before[..RingSize];
      }
      ModKeepsAlignment(pos[inst] + FrameLenPerInst);
      pos[inst] := (pos[inst] + FrameLenPerInst) % RingSize;
    }
  }
}
