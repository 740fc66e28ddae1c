/**
 * The legacy recorder reader: a 1200-byte buffer that receive DMA fills in
 * two 600-byte halves, read out byte by byte through a position that wraps
 * back to the start after the last byte.
 */
module Recorder {
  import opened Machine

  const BufferSize: nat := 600
  const BufferNum: nat := 2

  /** Bytes in the whole circular buffer. */
  const RecorderBytes: nat := 1200

  lemma RecorderFormulas()
    ensures RecorderBytes == BufferSize * BufferNum
  {
  }

  /**
   * The position after `n` bytes were read from position `p`. The position
   * is reset to 0 just before a read when it is past the last byte, and
   * moves one past the byte read, so after any read it lies in 1..1200.
   */
  function PositionAfter(p: nat, n: nat): (q: nat)
    requires p <= RecorderBytes
    ensures q <= RecorderBytes
    ensures n > 0 ==> 0 < q
  {
    if n == 0 then p else (p + n - 1) % RecorderBytes + 1
  }

  /**
   * Where the next byte is read from: the position, reset to 0 when it is
   * past the end, is byte `k` of the read counted circularly, and reading
   * it leaves the position one further.
   */
  lemma NextRead(p: nat, k: nat)
    requires p <= RecorderBytes
    ensures var q := PositionAfter(p, k);
            (if q > RecorderBytes - 1 then 0 else q) == (p + k) % RecorderBytes &&
            PositionAfter(p, k + 1) == (if q > RecorderBytes - 1 then 0 else q) + 1
  {
    if k > 0 {
      var r := (p + k - 1) % RecorderBytes;
      var m := (p + k - 1) / RecorderBytes;
      assert p + k - 1 == RecorderBytes * m + r;
      if r + 1 == RecorderBytes {
        assert p + k == RecorderBytes * (m + 1);
      } else {
        assert p + k == RecorderBytes * m + (r + 1);
      }
    }
  }

  /** Reading `a` bytes and then `b` more leaves the position where one read of `a + b` bytes does. */
  lemma PositionAfterAdds(p: nat, a: nat, b: nat)
    requires p <= RecorderBytes
    ensures PositionAfter(PositionAfter(p, a), b) == PositionAfter(p, a + b)
  {
    if a > 0 && b > 0 {
      var r := (p + a - 1) % RecorderBytes;
      var m := (p + a - 1) / RecorderBytes;
      assert p + a - 1 == RecorderBytes * m + r;
      ModAdd(r, RecorderBytes * m, b);
    }
  }

  /** Adding whole laps does not change a position modulo the buffer size. */
  lemma ModAdd(r: nat, laps: nat, b: nat)
    requires laps % RecorderBytes == 0
    ensures (r + b) % RecorderBytes == (laps + r + b) % RecorderBytes
  {
    var m := laps / RecorderBytes;
    assert laps == RecorderBytes * m;
    var q, s := (r + b) / RecorderBytes, (r + b) % RecorderBytes;
    assert laps + r + b == RecorderBytes * (m + q) + s;
  }

  /** The second of two reads continues exactly where the first stopped. */
  lemma ReadsContinue(p: nat, a: nat, k: nat)
    requires p <= RecorderBytes
    ensures (PositionAfter(p, a) + k) % RecorderBytes == (p + a + k) % RecorderBytes
  {
    if a > 0 {
      var r := (p + a - 1) % RecorderBytes;
      var m := (p + a - 1) / RecorderBytes;
      assert p + a - 1 == RecorderBytes * m + r;
      ModAdd(r, RecorderBytes * m, k + 1);
    }
  }

  /** The circular buffer, its read position and the first-interrupt flag. */
  class RecorderBuffer {
    const buffer: array<bv8>
    var audioPosition: nat
    var firstInt: bool

    ghost predicate Valid()
      reads this
    {
      buffer.Length == RecorderBytes && audioPosition <= RecorderBytes
    }

    /** The zero-initialised statics. */
    constructor ()
      ensures Valid() && fresh(buffer) && audioPosition == 0 && !firstInt
    {
      buffer := new bv8[RecorderBytes](_ => 0);
      audioPosition := 0;
      firstInt := false;
    }

    /**
     * Copies `size` bytes into `out`, byte `k` from `k` places after the
     * current position, counted circularly; the counter is eight bits wide,
     * so at most 255 bytes can be asked for.
     */
    method GetBuffer(out: array<bv8>, size: nat)
      requires Valid() && out != buffer && size <= out.Length && size <= 255
      modifies this, out
      ensures Valid() && firstInt == old(firstInt)
      ensures forall k :: 0 <= k < size ==> out[k] == buffer[(old(audioPosition) + k) % RecorderBytes]
      ensures forall k :: size <= k < out.Length ==> out[k] == old(out[k])
      ensures audioPosition == PositionAfter(old(audioPosition), size)
    {
      ghost var p := audioPosition;
      var k: u8 := 0;
      while k < size
        invariant k <= size && firstInt == old(firstInt)
        invariant audioPosition == PositionAfter(p, k)
        invariant forall x :: 0 <= x < out.Length ==>
                    out[x] == if x < k then buffer[(p + x) % RecorderBytes] else old(out[x])
      {
        NextRead(p, k);
        if audioPosition > RecorderBytes - 1 {
          audioPosition := 0;
        }
        out[k] := buffer[audioPosition];
        audioPosition := audioPosition + 1;
        k := k + 1;
      }
    }

    /** The receive DMA completion: only the first one resets the read position. */
    method I2sCallback()
      requires Valid()
      modifies this
      ensures Valid() && firstInt
      ensures audioPosition == if old(firstInt) then old(audioPosition) else 0
    {
      if !firstInt {
        audioPosition := 0;
        firstInt := true;
      }
    }
  }
}
