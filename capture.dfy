/**
 * The capture bridge (serial audio in, USB isochronous IN out). Receive
 * DMA fills the two instance rings slot by slot and reports each filled
 * slot through `Callback`; the USB IN handler pulls frames out of the
 * rings with `Pull`, which also decides the packet length (implicit
 * feedback): one frame more than nominal when the rings run full, one
 * frame less when they run empty.
 */
module Capture {
  import opened Machine
  import opened Layout
  import opened Fill
  import opened Frames

  /** Receive-side aliases of the shared geometry. */
  const RxBuffNum: nat := 4
  const RxBuffSize: nat := 1536

  /** Feedback thresholds (in packets of backlog), step and nominal packet length (in bytes). */
  const RxFeedbackThUp: nat := 9
  const RxFeedbackThDown: nat := 4
  const RxFeedbackThStep: nat := 64
  const RxFeedbackNormal: nat := 384

  /** Write count the bridge restarts from once half of the DMA slots are full. */
  const RxBaseline: nat := 3072

  lemma RxConstantFormulas()
    ensures RxBuffNum == BuffNum && RxBuffSize == BuffSize
    ensures RxFeedbackThStep == AudioFormatChannels * AudioFormatSize && RxFeedbackThStep == FrameLen
    ensures RxFeedbackNormal == HsIsoInPacketSize
    ensures RxBaseline == (RxBuffNum / 2) * RxBuffSize
  {
  }

  /** The packet length chosen for a backlog of `fill` packets. */
  function ImplicitSize(fill: u32): (size: nat)
    ensures size % FrameLen == 0
    ensures RxFeedbackNormal - RxFeedbackThStep <= size <= RxFeedbackNormal + RxFeedbackThStep
  {
    if fill >= RxFeedbackThUp then RxFeedbackNormal + RxFeedbackThStep
    else if fill <= RxFeedbackThDown then RxFeedbackNormal - RxFeedbackThStep
    else RxFeedbackNormal
  }

  /**
   * The packet length for the current counters, sized from the corrected
   * fill level: it agrees with the as-written computation while the
   * producer is ahead, and sends the short packet once the consumer has run
   * ahead.
   */
  function ImplicitFeedback(write: u64, read: u64): (size: nat)
    ensures size % FrameLen == 0
    ensures read <= write ==> size == ImplicitSize(FillPacketsAsWritten(write, read))
    ensures write < read ==> size == RxFeedbackNormal - RxFeedbackThStep
    ensures RxFeedbackNormal - RxFeedbackThStep <= size <= RxFeedbackNormal + RxFeedbackThStep
  {
    ImplicitSize(FillPackets(write, read))
  }

  /**
   * In terms of the backlog `write - read` in bytes: at least nine packets
   * buffered sends one frame more than nominal, fewer than five (including
   * none at all, and the consumer being ahead) sends one frame less, and
   * anything in between sends the nominal packet.
   */
  lemma ImplicitFeedbackSteers(write: u64, read: u64)
    requires write < read || write - read < HsIsoInPacketSize * TWO32
    ensures (read <= write && write - read >= RxFeedbackThUp * HsIsoInPacketSize) ==>
              ImplicitFeedback(write, read) == RxFeedbackNormal + RxFeedbackThStep
    ensures (write < read || write - read < (RxFeedbackThDown + 1) * HsIsoInPacketSize) ==>
              ImplicitFeedback(write, read) == RxFeedbackNormal - RxFeedbackThStep
    ensures (read <= write && (RxFeedbackThDown + 1) * HsIsoInPacketSize <= write - read < RxFeedbackThUp * HsIsoInPacketSize) ==>
              ImplicitFeedback(write, read) == RxFeedbackNormal
  {
    if read <= write {
      var d := write - read;
      assert d == HsIsoInPacketSize * (d / HsIsoInPacketSize) + d % HsIsoInPacketSize;
    }
  }

  /** A fuller ring never yields a shorter packet. */
  lemma ImplicitFeedbackMonotone(w1: u64, w2: u64, read: u64)
    requires w1 <= w2 && w2 - read < HsIsoInPacketSize * TWO32
    ensures ImplicitFeedback(w1, read) <= ImplicitFeedback(w2, read)
  {
    FillPacketsMonotone(w1, w2, read);
  }

  /** The scalar state of the bridge: next DMA slot, start-up flags and the two byte counters. */
  datatype RxCtx = RxCtx(nextBufIndex: nat, firstInt: bool, firstGet: bool, readCount: u64, writeCount: u64)

  /** The state cleanup leaves behind. */
  const Clean: RxCtx := RxCtx(0, false, false, 0, 0)

  /** Start-up flags are ordered: USB may only have started once DMA had filled half of the slots. */
  ghost predicate Coherent(c: RxCtx)
  {
    c.nextBufIndex < RxBuffNum && (c.firstGet ==> c.firstInt)
  }

  /** A pull answers with silence while USB has not started and DMA is not exactly half-way round. */
  predicate Silent(c: RxCtx)
  {
    !c.firstGet && (!c.firstInt || c.nextBufIndex != RxBuffNum / 2)
  }

  /** The counters a pull measures with: on the first real pull they restart from the baseline. */
  function Started(c: RxCtx): RxCtx
  {
    if c.firstGet then c else c.(writeCount := RxBaseline, readCount := 0, firstGet := true)
  }

  /** Bytes a pull of `size` requested bytes produces. */
  function PullSize(c: RxCtx, size: nat): nat
  {
    if Silent(c) then size else ImplicitFeedback(Started(c).writeCount, Started(c).readCount)
  }

  /** Scalar state after a pull. */
  function AfterPull(c: RxCtx, size: nat): RxCtx
  {
    if Silent(c) then c
    else Started(c).(readCount := Add64(Started(c).readCount, PullSize(c, size)))
  }

  /** Scalar state after a DMA slot completed without a frame error. */
  function AfterCallback(c: RxCtx): RxCtx
  {
    var idx := (c.nextBufIndex + 1) % RxBuffNum;
    if !c.firstInt && idx == RxBuffNum / 2 then
      c.(nextBufIndex := idx, writeCount := RxBaseline, readCount := 0, firstInt := true)
    else
      c.(nextBufIndex := idx, writeCount := Add64(c.writeCount, RxBuffSize))
  }

  /** The bytes a pull writes to the USB buffer. */
  ghost function PullBytes(c: RxCtx, R: seq<seq<bv8>>, P: seq<int>, size: nat): seq<bv8>
    requires Shaped(R, P)
  {
    if Silent(c) then Zeros(size) else Deinterleave(R, P, PullSize(c, size) / FrameLen)
  }

  /** The cursors after a pull. */
  ghost function PullCursors(c: RxCtx, P: seq<int>, size: nat): seq<int>
    requires |P| == InstNum && forall i :: 0 <= i < InstNum ==> CursorOk(P[i])
  {
    if Silent(c) then P else Advance(P, PullSize(c, size) / FrameLen)
  }

  /** Callbacks and pulls keep the start-up flags ordered. */
  lemma CoherentPreserved(c: RxCtx, size: nat)
    requires Coherent(c)
    ensures Coherent(AfterCallback(c)) && Coherent(AfterPull(c, size)) && Coherent(Clean)
  {
  }

  /** `k` slot completions in a row, without frame errors. */
  function Callbacks(c: RxCtx, k: nat): RxCtx
  {
    if k == 0 then c else AfterCallback(Callbacks(c, k - 1))
  }

  /**
   * From a clean start, pulls are silent until DMA has completed half of
   * its slots; the completion that reaches the half-way slot restarts the
   * counters at the baseline, two slots ahead of the consumer.
   */
  lemma {:induction false} StartUp(k: nat)
    requires k <= RxBuffNum / 2
    ensures Callbacks(Clean, k).nextBufIndex == k
    ensures k < RxBuffNum / 2 ==> Silent(Callbacks(Clean, k)) && Callbacks(Clean, k).writeCount == k * RxBuffSize
    ensures k == RxBuffNum / 2 ==> !Silent(Callbacks(Clean, k)) && Callbacks(Clean, k) == RxCtx(k, true, false, 0, RxBaseline)
  {
    if k > 0 {
      StartUp(k - 1);
    }
  }

  /** The first real pull restarts the counters and produces exactly one nominal packet. */
  lemma FirstPullIsNominal(c: RxCtx, size: nat)
    requires !Silent(c) && !c.firstGet
    ensures PullSize(c, size) == RxFeedbackNormal
    ensures AfterPull(c, size) == c.(writeCount := RxBaseline, readCount := RxFeedbackNormal, firstGet := true)
  {
  }

  /** Once USB has started, pulls are never silent again until the next cleanup. */
  lemma StaysStarted(c: RxCtx, size: nat)
    requires c.firstGet
    ensures !Silent(c) && AfterPull(c, size).firstGet && AfterCallback(c).firstGet
  {
  }

  /**
   * The producer is not held back: with USB not pulling, three slot
   * completions after start-up leave 7680 bytes counted in flight although
   * the two rings hold only 6144.
   */
  lemma ProducerIsNotCapped()
    ensures var c := Callbacks(Clean, 5);
            c.writeCount - c.readCount == 7680 > InstNum * RingSize
  {
  }

  /** `k` pulls in a row with no slot completing in between. */
  function Pulls(c: RxCtx, k: nat): RxCtx
  {
    if k == 0 then c else AfterPull(Pulls(c, k - 1), RxFeedbackNormal)
  }

  /**
   * As written, a stalled producer makes the consumer overshoot: after
   * start-up and nine pulls with no slot completing (four nominal packets,
   * then five short ones), the consumer is 64 bytes ahead and the next
   * packet would carry 448 bytes, asking the host to take data faster,
   * where an empty ring should give 320.
   */
  lemma StalledCaptureSpeedsUpAsWritten()
    ensures var c := Pulls(Callbacks(Clean, 2), 9);
            c.readCount == 3136 && c.writeCount == 3072 &&
            ImplicitSize(FillPacketsAsWritten(c.writeCount, c.readCount)) == RxFeedbackNormal + RxFeedbackThStep
  {
    var c0 := Callbacks(Clean, 2);
    assert c0 == RxCtx(2, true, false, 0, 3072) by {
      StartUp(2);
    }
    assert Pulls(c0, 1) == RxCtx(2, true, true, 384, 3072);
    assert Pulls(c0, 2) == RxCtx(2, true, true, 768, 3072);
    assert Pulls(c0, 3) == RxCtx(2, true, true, 1152, 3072);
    assert Pulls(c0, 4) == RxCtx(2, true, true, 1536, 3072);
    assert Pulls(c0, 5) == RxCtx(2, true, true, 1856, 3072);
    assert Pulls(c0, 6) == RxCtx(2, true, true, 2176, 3072);
    assert Pulls(c0, 7) == RxCtx(2, true, true, 2496, 3072);
    assert Pulls(c0, 8) == RxCtx(2, true, true, 2816, 3072);
    assert Pulls(c0, 9) == RxCtx(2, true, true, 3136, 3072);
    OverdrawnReadsAsFull();
  }

  /** With the saturating fill level, a consumer that has caught up always gets the short packet. */
  lemma StalledCaptureSlowsDown(write: u64, read: u64)
    requires write <= read
    ensures ImplicitFeedback(write, read) == RxFeedbackNormal - RxFeedbackThStep
  {
  }

  /** The capture bridge's buffers, cursors and scalar state. */
  class RxBridge {
    /** The receive rings of all instances back to back, instance `i` from `RingBase(i)`. */
    const buff: array<bv8>
    /** One read cursor per instance. */
    const pos: array<int>
    var nextBufIndex: nat
    var firstInt: bool
    var firstGet: bool
    var readCount: u64
    var writeCount: u64
    /** Whether the receive DMA channels are armed. */
    var dmaActive: bool

    /** The rings and the cursors have the sizes the firmware declares. */
    predicate Sized()
    {
      buff.Length == RingsSize && pos.Length == InstNum
    }

    ghost predicate Valid()
      reads this, pos
    {
      Sized() &&
      CursorOk(pos[0]) && CursorOk(pos[1]) &&
      Coherent(Ctx())
    }

    ghost function Ctx(): RxCtx
      reads this
    {
      RxCtx(nextBufIndex, firstInt, firstGet, readCount, writeCount)
    }

    /** Ring contents, one byte string per instance. */
    ghost function Rings(): (R: seq<seq<bv8>>)
      requires buff.Length == RingsSize
      reads buff
      ensures |R| == InstNum
      ensures forall i :: 0 <= i < InstNum ==> R[i] == buff[RingBase(i) .. RingBase(i) + RingSize]
    {
      [buff[..RingSize], buff[RingSize..]]
    }

    ghost function Pos(): (P: seq<int>)
      requires pos.Length == InstNum
      reads pos
      ensures |P| == InstNum
    {
      pos[..]
    }

    /** The statically allocated (zero-initialised) state before any start. */
    constructor ()
      ensures Valid() && fresh(buff) && fresh(pos)
      ensures Ctx() == Clean && !dmaActive
      ensures Rings() == [Zeros(RingSize), Zeros(RingSize)] && Pos() == [0, 0]
    {
      buff := new bv8[RingsSize](_ => 0);
      pos := new int[InstNum](_ => 0);
      nextBufIndex, firstInt, firstGet, readCount, writeCount := 0, false, false, 0, 0;
      dmaActive := false;
      new;
      assert buff[..RingSize] == Zeros(RingSize) && buff[RingSize..] == Zeros(RingSize);
      assert pos[..] == [0, 0];
    }

    /** Zeroes the scalar state, the cursors and the ring contents. */
    method Cleanup()
      requires Valid()
      modifies this, buff, pos
      ensures Valid() && dmaActive == old(dmaActive)
      ensures Ctx() == Clean
      ensures Rings() == [Zeros(RingSize), Zeros(RingSize)] && Pos() == [0, 0]
    {
      nextBufIndex, firstInt, firstGet, writeCount, readCount := 0, false, false, 0, 0;
      for inst := 0 to InstNum
        invariant Ctx() == Clean && dmaActive == old(dmaActive)
        invariant forall i :: 0 <= i < inst ==> pos[i] == 0
        invariant forall i :: inst <= i < InstNum ==> CursorOk(pos[i])
        invariant forall x :: 0 <= x < RingsSize && (x < RingSize ==> 0 < inst) && (RingSize <= x ==> 1 < inst) ==> buff[x] == 0
      {
        pos[inst] := 0;
        ZeroBytes(buff, RingBase(inst), RingSize);
      }
      assert Rings() == [Zeros(RingSize), Zeros(RingSize)] by {
        assert buff[..RingSize] == Zeros(RingSize);
        assert buff[RingSize..] == Zeros(RingSize);
      }
      assert Pos() == [0, 0];
    }

    /** Aborts receive DMA and cleans up. */
    method Stop()
      requires Valid()
      modifies this, buff, pos
      ensures Valid() && !dmaActive && Ctx() == Clean
      ensures Rings() == [Zeros(RingSize), Zeros(RingSize)] && Pos() == [0, 0]
    {
      dmaActive := false;
      Cleanup();
    }

    /** Cleans up and arms receive DMA on every slot of every instance. */
    method Start()
      requires Valid()
      modifies this, buff, pos
      ensures Valid() && dmaActive && Ctx() == Clean
      ensures Rings() == [Zeros(RingSize), Zeros(RingSize)] && Pos() == [0, 0]
    {
      Cleanup();
      dmaActive := true;
    }

    /**
     * Checks the instances in order for a frame error reported by the
     * serial-audio hardware (`frameErrors[i]`); on the first one found the
     * whole bridge is stopped and started again.
     */
    method CheckReset(frameErrors: seq<bool>) returns (reset: bool)
      requires Valid() && |frameErrors| == InstNum
      modifies this, buff, pos
      ensures Valid()
      ensures reset <==> exists i :: 0 <= i < InstNum && frameErrors[i]
      ensures reset ==> dmaActive && Ctx() == Clean &&
                        Rings() == [Zeros(RingSize), Zeros(RingSize)] && Pos() == [0, 0]
      ensures !reset ==> dmaActive == old(dmaActive) && Ctx() == old(Ctx()) &&
                         Rings() == old(Rings()) && Pos() == old(Pos())
    {
      for inst := 0 to InstNum
        invariant forall i :: 0 <= i < inst ==> !frameErrors[i]
      {
        if frameErrors[inst] {
          Stop();
          Start();
          return true;
        }
      }
      return false;
    }

    /** A receive DMA slot completed. */
    method Callback(frameErrors: seq<bool>)
      requires Valid() && |frameErrors| == InstNum
      modifies this, buff, pos
      ensures Valid()
      ensures (exists i :: 0 <= i < InstNum && frameErrors[i]) ==>
                dmaActive && Ctx() == Clean &&
                Rings() == [Zeros(RingSize), Zeros(RingSize)] && Pos() == [0, 0]
      ensures (forall i :: 0 <= i < InstNum ==> !frameErrors[i]) ==>
                dmaActive == old(dmaActive) && Ctx() == AfterCallback(old(Ctx())) &&
                Rings() == old(Rings()) && Pos() == old(Pos())
    {
      var reset := CheckReset(frameErrors);
      if reset {
        return;
      }
      nextBufIndex := (nextBufIndex + 1) % RxBuffNum;
      if !firstInt && nextBufIndex == RxBuffNum / 2 {
        writeCount := RxBaseline;
        readCount := 0;
        firstInt := true;
        return;
      }
      writeCount := Add64(writeCount, RxBuffSize);
    }

    /**
     * Fills `usbBuffer` for one IN packet of `size` requested bytes and
     * returns the number of bytes produced.
     */
    method Pull(usbBuffer: array<bv8>, size: nat) returns (n: nat)
      requires Valid() && usbBuffer != buff
      requires size % FrameLen == 0 && size <= usbBuffer.Length
      requires RxFeedbackNormal + RxFeedbackThStep <= usbBuffer.Length
      modifies this, pos, usbBuffer
      ensures Valid() && dmaActive == old(dmaActive)
      ensures n == PullSize(old(Ctx()), size) && Ctx() == AfterPull(old(Ctx()), size)
      ensures n % FrameLen == 0 && n <= usbBuffer.Length
      ensures Rings() == old(Rings())
      ensures usbBuffer[..n] == PullBytes(old(Ctx()), old(Rings()), old(Pos()), size)
      ensures usbBuffer[n..] == old(usbBuffer[n..])
      ensures Pos() == PullCursors(old(Ctx()), old(Pos()), size)
    {
      if !firstGet {
        if !firstInt || nextBufIndex != RxBuffNum / 2 {
          ZeroBytes(usbBuffer, 0, size);
          return size;
        }
        writeCount := RxBaseline;
        readCount := 0;
        firstGet := true;
      }
      n := ImplicitFeedback(writeCount, readCount);
      WholeFrames(n);
      PullFrames(usbBuffer, n / FrameLen);
      readCount := Add64(readCount, n);
    }

    /** Copies `frames` frames out of the rings into `usbBuffer`, advancing the cursors. */
    method PullFrames(usbBuffer: array<bv8>, frames: nat)
      requires Valid() && usbBuffer != buff
      requires FrameLen * frames <= usbBuffer.Length
      modifies pos, usbBuffer
      ensures Valid() && Rings() == old(Rings())
      ensures usbBuffer[..] == Deinterleave(old(Rings()), old(Pos()), frames) + old(usbBuffer[..])[FrameLen * frames..]
      ensures Pos() == Advance(old(Pos()), frames)
    {
      ghost var R := Rings();
      ghost var P := Pos();
      ghost var O := usbBuffer[..];
      assert Shaped(R, P);
      var k := 0;
      for f := 0 to frames
        invariant k == FrameLen * f
        invariant pos[0] == Cursor(P[0], f) && pos[1] == Cursor(P[1], f)
        invariant usbBuffer[..] == PulledInto(R, P, O, f)
      {
        FrameFits(f, frames);
        PullFrame(usbBuffer, k, R, P, f, O);
        k := k + FrameLen;
      }
      assert Pos() == Advance(P, frames);
    }

    /**
     * Copies frame `f` (one block per instance) to offset `k` of `usbBuffer`
     * and advances the cursors: the frames read so far grow by one.
     */
    method PullFrame(usbBuffer: array<bv8>, k: nat, ghost R: seq<seq<bv8>>, ghost P: seq<int>, ghost f: nat, ghost O: seq<bv8>)
      requires Sized() && usbBuffer != buff
      requires Shaped(R, P) && Rings() == R
      requires k == FrameLen * f && k + FrameLen <= usbBuffer.Length == |O|
      requires pos[0] == Cursor(P[0], f) && pos[1] == Cursor(P[1], f)
      requires usbBuffer[..] == PulledInto(R, P, O, f)
      modifies pos, usbBuffer
      ensures pos[0] == Cursor(P[0], f + 1) && pos[1] == Cursor(P[1], f + 1)
      ensures FrameLen * (f + 1) <= |O| && usbBuffer[..] == PulledInto(R, P, O, f + 1)
    {
      ghost var C := Advance(P, f);
      ghost var D := Deinterleave(R, P, f);
      assert Shaped(R, C);
      for inst := 0 to InstNum
        invariant pos[0] == Cursor(P[0], if 0 < inst then f + 1 else f)
        invariant pos[1] == Cursor(P[1], if 1 < inst then f + 1 else f)
        invariant usbBuffer[..] == D + Frame(R, C, inst) + O[k + FrameLenPerInst * inst..]
      {
        ghost var before := usbBuffer[..];
        BlockFits(inst);
        PullBlock(usbBuffer, k + FrameLenPerInst * inst, inst);
        PulledBlock(D, R, C, inst, O, before, usbBuffer[..]);
        CursorStep(P[inst], f);
      }
      DeinterleaveStep(R, P, f);
      FrameFits(f, f + 1);
    }

    /** Copies the block of instance `inst` at its cursor to offset `off` of `usbBuffer` and advances that cursor. */
    method PullBlock(usbBuffer: array<bv8>, off: nat, inst: nat)
      requires Sized() && usbBuffer != buff
      requires inst < InstNum && CursorOk(pos[inst]) && off + FrameLenPerInst <= usbBuffer.Length
      modifies pos, usbBuffer
      ensures usbBuffer[..] == old(usbBuffer[..off]) + old(Rings()[inst][pos[inst] .. pos[inst] + FrameLenPerInst]) + old(usbBuffer[off + FrameLenPerInst..])
      ensures pos[inst] == (old(pos[inst]) + FrameLenPerInst) % RingSize
      ensures pos[1 - inst] == old(pos[1 - inst])
    {
      ghost var block := Rings()[inst][pos[inst] .. pos[inst] + FrameLenPerInst];
      SliceOfSlice(buff[..], RingBase(inst), RingBase(inst) + RingSize, pos[inst], pos[inst] + FrameLenPerInst);
      CopyBytes(usbBuffer, off, buff, RingBase(inst) + pos[inst], FrameLenPerInst);
      ModKeepsAlignment(pos[inst] + FrameLenPerInst);
      pos[inst] := (pos[inst] + FrameLenPerInst) % RingSize;
    }
  }
}
