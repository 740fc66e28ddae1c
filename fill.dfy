/**
 * How full a bridge's rings are, in whole high-speed isochronous packets,
 * computed from the two free-running 64-bit byte counters: bytes produced
 * into the rings (`write`) and bytes consumed out of them (`read`). Both
 * bridges divide by the high-speed packet size whatever the bus speed.
 */
module Fill {
  import opened Machine
  import opened Layout

  /**
   * The fill level exactly as both bridges compute it: the counters are
   * subtracted as uint64_t, divided by the packet size, and the quotient is
   * stored in a uint32_t. When the consumer has run ahead of the producer
   * the difference wraps to a huge value.
   */
  function FillPacketsAsWritten(write: u64, read: u64): (fill: u32)
    ensures read <= write && write - read < HsIsoInPacketSize * TWO32 ==> fill == (write - read) / HsIsoInPacketSize
    ensures write < read ==> fill == ((TWO64 + write - read) / HsIsoInPacketSize) % TWO32
  {
    Trunc32(Sub64(write, read) / HsIsoInPacketSize)
  }

  /**
   * The fill level the bridges evidently intend: bytes in flight divided by
   * the packet size, and zero (empty) once the consumer has caught up with
   * or overtaken the producer.
   */
  function FillPackets(write: u64, read: u64): (fill: u32)
    ensures read <= write ==> fill == FillPacketsAsWritten(write, read)
    ensures write <= read ==> fill == 0
  {
    if write < read then 0 else FillPacketsAsWritten(write, read)
  }

  /** Producing more, with the same consumption, never lowers the fill level. */
  lemma FillPacketsMonotone(w1: u64, w2: u64, read: u64)
    requires w1 <= w2 && w2 - read < HsIsoInPacketSize * TWO32
    ensures FillPackets(w1, read) <= FillPackets(w2, read)
  {
    if read <= w1 {
      DivMonotone(w1 - read, w2 - read);
    }
  }

  /**
   * The as-written level is not monotone: across write = read it falls from
   * the wrapped value to a small one as more bytes are produced.
   */
  lemma FillPacketsAsWrittenNotMonotone()
    ensures 3072 <= 6592 && 6592 - 3136 < HsIsoInPacketSize * TWO32
    ensures FillPacketsAsWritten(3072, 3136) > FillPacketsAsWritten(6592, 3136) == 9
  {
  }

  lemma DivMonotone(a: nat, b: nat)
    requires a <= b
    ensures a / HsIsoInPacketSize <= b / HsIsoInPacketSize
  {
    var qa, qb := a / HsIsoInPacketSize, b / HsIsoInPacketSize;
    assert a == HsIsoInPacketSize * qa + a % HsIsoInPacketSize;
    assert b == HsIsoInPacketSize * qb + b % HsIsoInPacketSize;
  }

  /**
   * The discrepancy: one 320-byte pull too many after the producer stalled
   * leaves the consumer 64 bytes ahead, and the computed fill level jumps
   * from 0 to 2863311530 packets instead of staying at 0.
   */
  lemma OverdrawnReadsAsFull()
    ensures FillPacketsAsWritten(3072, 3136) == 2863311530
    ensures FillPackets(3072, 3136) == 0
  {
  }
}
