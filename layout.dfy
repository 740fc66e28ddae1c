/**
 * Audio format and TDM buffer geometry of the bridge: the stream is
 * 48 kHz, 16 channels of 4-byte samples, carried over two serial-audio
 * instances of eight channels each. Each constant is given by its value;
 * `MacroFormulas` records the formula the firmware derives it from.
 */
module Layout {
  const AudioSamplingRateKhz: nat := 48
  const AudioFormatChannels: nat := 0x10
  const AudioFormatSize: nat := 4

  /** Isochronous packet sizes: one 125 us microframe at high speed, one 1 ms frame at full speed. */
  const HsIsoInPacketSize: nat := 384
  const FsIsoInPacketSize: nat := 3072
  const HsIsoOutPacketSize: nat := 384
  const FsIsoOutPacketSize: nat := 3072
  const HsIsoInInterval: nat := 1
  const FsIsoInInterval: nat := 1
  const HsIsoOutInterval: nat := 1
  const FsIsoOutInterval: nat := 1

  const UsbMaxPacketSize: nat := 384

  /** Serial-audio instances, DMA slots per instance, and the slot sizes. */
  const InstNum: nat := 2
  const BuffNum: nat := 4
  const BuffSizePerInst: nat := 768
  const BuffSize: nat := 1536

  /** Channel layout of one TDM frame. */
  const ChNum: nat := 16
  const ChNumPerPair: nat := 2
  const ChLenData: nat := 4
  const ChNumPerInst: nat := 8
  const FrameLen: nat := 64
  const FrameLenPerInst: nat := 32

  /** Bytes in the ring of one instance: all of its DMA slots back to back. */
  const RingSize: nat := 3072

  /** Per-instance blocks in one ring: how many frames fit into one lap. */
  const RingBlocks: nat := 96

  /** Bytes of the two-dimensional ring array: the rings of all instances back to back. */
  const RingsSize: nat := 6144

  /** Where the ring of instance `inst` starts inside the ring array. */
  function RingBase(inst: nat): (base: nat)
    requires inst < InstNum
    ensures base + RingSize <= RingsSize
  {
    if inst == 0 then 0 else RingSize
  }

  /** Each constant agrees with the formula the firmware's headers write for it. */
  lemma MacroFormulas()
    ensures HsIsoInPacketSize == (AudioSamplingRateKhz * AudioFormatChannels * AudioFormatSize) / 8
    ensures FsIsoInPacketSize == AudioSamplingRateKhz * AudioFormatChannels * AudioFormatSize
    ensures HsIsoOutPacketSize == (AudioSamplingRateKhz * AudioFormatChannels * AudioFormatSize) / 8
    ensures FsIsoOutPacketSize == AudioSamplingRateKhz * AudioFormatChannels * AudioFormatSize
    ensures UsbMaxPacketSize == HsIsoInPacketSize
    ensures BuffSizePerInst == (UsbMaxPacketSize * 4) / InstNum
    ensures BuffSize == InstNum * BuffSizePerInst
    ensures ChNumPerInst == ChNum / InstNum
    ensures FrameLen == ChNum * ChLenData
    ensures FrameLenPerInst == ChNumPerInst * ChLenData
    ensures RingSize == BuffSizePerInst * BuffNum
    ensures RingsSize == InstNum * RingSize
    ensures RingBlocks == RingSize / FrameLenPerInst && RingSize == FrameLenPerInst * RingBlocks
    ensures forall inst :: 0 <= inst < InstNum ==> RingBase(inst) == RingSize * inst
  {
  }

  /**
   * The geometry is self-consistent: a frame is one per-instance block per
   * instance and one sample per channel, a DMA slot and the whole ring hold
   * whole per-instance blocks, and a high-speed packet is a whole number of
   * frames.
   */
  lemma GeometryIsConsistent()
    ensures FrameLen == InstNum * FrameLenPerInst
    ensures FrameLen == AudioFormatChannels * AudioFormatSize
    ensures BuffSizePerInst % FrameLenPerInst == 0 && RingSize % FrameLenPerInst == 0
    ensures HsIsoInPacketSize % FrameLen == 0 && FsIsoInPacketSize == 8 * HsIsoInPacketSize
    ensures BuffSize == 4 * HsIsoInPacketSize
  {
  }
}
