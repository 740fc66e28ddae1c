/**
 * The USB device state handler of the bridge: the configuration and
 * alternate-setting bookkeeping driven by the device stack's events, and
 * the gates that decide whether a completed isochronous transfer is
 * refilled or resubmitted.
 */
module Device {
  import opened Machine
  import opened Layout
  import Descriptors
  import Capture
  import Playback
  import Frames

  type Status = Descriptors.Status

  /** Interface numbers, and how many alternate settings each interface has. */
  const ControlInterfaceIndex: nat := 0
  const StreamInInterfaceIndex: nat := 1
  const StreamOutInterfaceIndex: nat := 2
  const InterfaceCount: nat := 3
  const ControlAlternateCount: nat := 1
  const StreamAlternateCount: nat := 2
  const StreamAlternate1: nat := 1

  /** How many alternate settings interface `i` has; none for an interface the device lacks. */
  function AlternateCount(i: nat): (n: nat)
    ensures n > 0 <==> i < InterfaceCount
  {
    if i == ControlInterfaceIndex then ControlAlternateCount
    else if i == StreamInInterfaceIndex || i == StreamOutInterfaceIndex then StreamAlternateCount
    else 0
  }

  /** What the handler remembers between requests. */
  datatype DeviceState = DeviceState(attach: bool, configuration: u8, alternates: seq<u8>)

  /**
   * The invariant the handler keeps: one alternate setting per interface,
   * each one the interface has, and the device is attached exactly when the
   * one configuration is selected.
   */
  predicate Consistent(s: DeviceState)
  {
    |s.alternates| == InterfaceCount &&
    (forall i :: 0 <= i < InterfaceCount ==> s.alternates[i] < AlternateCount(i)) &&
    s.configuration <= Descriptors.ConfigureIndex &&
    (s.attach <==> s.configuration == Descriptors.ConfigureIndex)
  }

  /** The state after a bus reset, which is also the power-on state. */
  const ResetState: DeviceState := DeviceState(false, 0, [0, 0, 0])

  lemma ResetStateConsistent()
    ensures Consistent(ResetState)
  {
  }

  /**
   * SET_CONFIGURATION: 0 returns to the address state, the one
   * configuration attaches the device, and any other value is refused and
   * changes nothing. The alternate settings are never touched.
   */
  function ConfigurationRequest(s: DeviceState, value: u8): (r: (Status, DeviceState))
    ensures r.0 == Descriptors.Success <==> value <= Descriptors.ConfigureIndex
    ensures r.0 == Descriptors.Success ==> r.1.configuration == value && (r.1.attach <==> value != 0)
    ensures r.0 == Descriptors.InvalidRequest ==> r.1 == s
    ensures r.1.alternates == s.alternates
    ensures Consistent(s) ==> Consistent(r.1)
  {
    if value == 0 then (Descriptors.Success, s.(attach := false, configuration := 0))
    else if value == Descriptors.ConfigureIndex as u8 then (Descriptors.Success, s.(attach := true, configuration := value))
    else (Descriptors.InvalidRequest, s)
  }

  /**
   * GET_INTERFACE: the request word carries the interface number in its
   * high byte; the reply keeps that byte and puts the interface's alternate
   * setting in the low byte. An interface the device lacks is refused and
   * the word is left as it was.
   */
  function InterfaceReply(s: DeviceState, value: u16): (r: (Status, u16))
    requires |s.alternates| == InterfaceCount
    ensures r.0 == Descriptors.Success <==> (Descriptors.High(value) as nat) < InterfaceCount
    ensures r.0 == Descriptors.Success ==>
              Descriptors.High(r.1) == Descriptors.High(value) &&
              Descriptors.Low(r.1) == s.alternates[Descriptors.High(value)]
    ensures r.0 == Descriptors.InvalidRequest ==> r.1 == value
  {
    var i := Descriptors.High(value);
    if (i as nat) < InterfaceCount then
      var reply := Le16(s.alternates[i], i);
      Descriptors.SplitOf(reply, s.alternates[i], i);
      (Descriptors.Success, reply)
    else
      (Descriptors.InvalidRequest, value)
  }

  /** Whether SET_INTERFACE with `value` is accepted in state `s`. */
  predicate InterfaceAccepted(s: DeviceState, value: u16)
  {
    s.attach && (Descriptors.Low(value) as nat) < AlternateCount(Descriptors.High(value) as nat)
  }

  /**
   * SET_INTERFACE: only while attached, and only for an alternate setting
   * the addressed interface has; the interface comes from the high byte and
   * the setting from the low byte. An accepted request stores the setting,
   * so that GET_INTERFACE with the same word reports it back unchanged; a
   * refused one changes nothing.
   */
  function InterfaceRequest(s: DeviceState, value: u16): (r: (Status, DeviceState))
    requires |s.alternates| == InterfaceCount
    ensures r.0 == Descriptors.Success <==> InterfaceAccepted(s, value)
    ensures r.0 == Descriptors.InvalidRequest ==> r.1 == s
    ensures r.1.attach == s.attach && r.1.configuration == s.configuration && |r.1.alternates| == InterfaceCount
    ensures r.0 == Descriptors.Success ==> InterfaceReply(r.1, value) == (Descriptors.Success, value)
    ensures forall j :: 0 <= j < InterfaceCount && j != Descriptors.High(value) as nat ==>
              r.1.alternates[j] == s.alternates[j]
    ensures Consistent(s) ==> Consistent(r.1)
  {
    var i, a := Descriptors.High(value), Descriptors.Low(value);
    if InterfaceAccepted(s, value) then
      Descriptors.SplitRoundTrip(value);
      (Descriptors.Success, s.(alternates := s.alternates[i := a]))
    else
      (Descriptors.InvalidRequest, s)
  }

  /** Whether an accepted SET_INTERFACE with `value` starts the stream of interface `i`. */
  predicate StartsStream(s: DeviceState, value: u16, i: nat)
  {
    InterfaceAccepted(s, value) && Descriptors.High(value) as nat == i &&
    Descriptors.Low(value) as nat == StreamAlternate1
  }

  /** After SET_CONFIGURATION(0) or a bus reset, every SET_INTERFACE is refused and changes nothing. */
  lemma DetachedRefusesInterface(s: DeviceState, value: u16)
    requires |s.alternates| == InterfaceCount
    ensures InterfaceRequest(ConfigurationRequest(s, 0).1, value) == (Descriptors.InvalidRequest, ConfigurationRequest(s, 0).1)
    ensures InterfaceRequest(ResetState, value) == (Descriptors.InvalidRequest, ResetState)
  {
  }

  /** Requests for two different interfaces do not interfere: they commute. */
  lemma InterfaceRequestsCommute(s: DeviceState, v: u16, w: u16)
    requires |s.alternates| == InterfaceCount && Descriptors.High(v) != Descriptors.High(w)
    ensures InterfaceRequest(InterfaceRequest(s, v).1, w).1 == InterfaceRequest(InterfaceRequest(s, w).1, v).1
  {
    var sv, sw := InterfaceRequest(s, v).1, InterfaceRequest(s, w).1;
    assert InterfaceAccepted(sv, w) == InterfaceAccepted(s, w);
    assert InterfaceAccepted(sw, v) == InterfaceAccepted(s, v);
  }

  /** The packet sizes are those of full speed until a high-speed reset, and those of high speed after it. */
  predicate PacketSizesOk(highSpeed: bool, inSize: nat, outSize: nat)
  {
    (inSize, outSize) == (HsIsoInPacketSize, HsIsoOutPacketSize) ||
    (!highSpeed && (inSize, outSize) == (FsIsoInPacketSize, FsIsoOutPacketSize))
  }

  /** Every packet size the device uses is a whole number of frames. */
  lemma PacketSizesWhole(highSpeed: bool, inSize: nat, outSize: nat)
    requires PacketSizesOk(highSpeed, inSize, outSize)
    ensures inSize % FrameLen == 0 && outSize % FrameLen == 0
  {
    GeometryIsConsistent();
    MacroFormulas();
  }

  /** The device-level state of the audio function. */
  class AudioDevice {
    var attach: bool
    var currentConfiguration: u8
    const currentInterfaceAlternateSetting: array<u8>
    var highSpeed: bool
    var streamInPacketSize: nat
    var streamOutPacketSize: nat

    ghost function State(): DeviceState
      reads this, currentInterfaceAlternateSetting
    {
      DeviceState(attach, currentConfiguration, currentInterfaceAlternateSetting[..])
    }

    ghost predicate Valid()
      reads this, currentInterfaceAlternateSetting
    {
      currentInterfaceAlternateSetting.Length == InterfaceCount && Consistent(State()) &&
      PacketSizesOk(highSpeed, streamInPacketSize, streamOutPacketSize)
    }

    /** The statically initialised device: detached, unconfigured, full speed. */
    constructor ()
      ensures Valid() && State() == ResetState && !highSpeed
      ensures (streamInPacketSize, streamOutPacketSize) == (FsIsoInPacketSize, FsIsoOutPacketSize)
      ensures fresh(currentInterfaceAlternateSetting)
    {
      attach := false;
      currentConfiguration := 0;
      currentInterfaceAlternateSetting := new u8[InterfaceCount](_ => 0);
      highSpeed := false;
      streamInPacketSize := FsIsoInPacketSize;
      streamOutPacketSize := FsIsoOutPacketSize;
      new;
      assert currentInterfaceAlternateSetting[..] == [0, 0, 0];
    }

    /**
     * A bus reset: every alternate setting returns to 0 and the device is
     * detached and unconfigured. When the stack reports the bus speed, the
     * speed is recorded and the descriptors are patched for it; at high
     * speed the packet sizes become the high-speed ones.
     */
    method BusReset(tables: Descriptors.DescriptorTables, reported: Descriptors.Option<bool>) returns (status: Status)
      requires Valid() && tables.Valid() && Descriptors.WalkOk(tables.config[..], 0)
      requires tables.config != currentInterfaceAlternateSetting
      modifies this, currentInterfaceAlternateSetting, tables.config, tables.inEndpoints, tables.outEndpoints
      ensures Valid() && Descriptors.WalkOk(tables.config[..], 0)
      ensures status == Descriptors.Success && State() == ResetState
      ensures highSpeed == if reported.Some? then reported.value else old(highSpeed)
      ensures (streamInPacketSize, streamOutPacketSize) ==
              if highSpeed then (HsIsoInPacketSize, HsIsoOutPacketSize)
              else (old(streamInPacketSize), old(streamOutPacketSize))
      ensures reported.Some? ==>
                tables.config[..] == Descriptors.Patched(old(tables.config[..]), reported.value, tables.feedback) &&
                tables.inEndpoints[..] ==
                  [Descriptors.WithSetting(old(tables.inEndpoints[0]), Descriptors.InSetting(reported.value))] &&
                tables.outEndpoints[..] ==
                  [Descriptors.WithSetting(old(tables.outEndpoints[0]), Descriptors.OutSetting(reported.value)),
                   Descriptors.WithSetting(old(tables.outEndpoints[1]),
                                           Descriptors.FeedbackSetting(tables.feedback, reported.value))]
      ensures reported.None? ==> unchanged(tables.config, tables.inEndpoints, tables.outEndpoints)
    {
      if reported.Some? {
        Descriptors.PatchedKeepsWalk(tables.config[..], reported.value, tables.feedback);
      }
      ClearAlternateSettings();
      attach := false;
      currentConfiguration := 0;
      status := Descriptors.Success;
      if reported.Some? {
        highSpeed := reported.value;
        var _ := tables.SetSpeed(highSpeed);
      }
      if highSpeed {
        streamInPacketSize := HsIsoInPacketSize;
        streamOutPacketSize := HsIsoOutPacketSize;
      }
    }

    /** Every interface back to alternate setting 0. */
    method ClearAlternateSettings()
      requires currentInterfaceAlternateSetting.Length == InterfaceCount
      modifies currentInterfaceAlternateSetting
      ensures currentInterfaceAlternateSetting[..] == ResetState.alternates
    {
      for count := 0 to InterfaceCount
        invariant forall j :: 0 <= j < count ==> currentInterfaceAlternateSetting[j] == 0
      {
        currentInterfaceAlternateSetting[count] := 0;
      }
      assert currentInterfaceAlternateSetting[..] == [0, 0, 0];
    }

    /** SET_CONFIGURATION; the speed and the packet sizes are not touched. */
    method SetConfiguration(value: u8) returns (status: Status)
      requires Valid()
      modifies this
      ensures Valid() && (status, State()) == ConfigurationRequest(old(State()), value)
      ensures highSpeed == old(highSpeed)
      ensures streamInPacketSize == old(streamInPacketSize) && streamOutPacketSize == old(streamOutPacketSize)
    {
      status := Descriptors.InvalidRequest;
      if value == 0 {
        attach := false;
        currentConfiguration := 0;
        status := Descriptors.Success;
      } else if value == Descriptors.ConfigureIndex as u8 {
        attach := true;
        currentConfiguration := value;
        status := Descriptors.Success;
      }
    }

    /** GET_CONFIGURATION: the current configuration, which is 1 exactly when the device is attached. */
    method GetConfiguration() returns (status: Status, value: u8)
      requires Valid()
      ensures status == Descriptors.Success && value == currentConfiguration
      ensures value == Descriptors.ConfigureIndex as u8 <==> attach
    {
      value := currentConfiguration;
      status := Descriptors.Success;
    }

    /** GET_INTERFACE. */
    method GetInterface(value: u16) returns (status: Status, reply: u16)
      requires Valid()
      ensures (status, reply) == InterfaceReply(State(), value)
    {
      var i := Descriptors.High(value);
      status, reply := Descriptors.InvalidRequest, value;
      if (i as nat) < InterfaceCount {
        reply := Le16(currentInterfaceAlternateSetting[i], i);
        status := Descriptors.Success;
      }
    }

    /**
     * SET_INTERFACE. Selecting alternate setting 1 of the IN streaming
     * interface fills one IN packet from capture and sends it, and selecting
     * it on the OUT streaming interface submits one OUT transfer; the
     * request then reports what the send or the submit returned (`sent`,
     * `received`). Nothing else touches capture.
     */
    method SetInterface(value: u16, rx: Capture.RxBridge, usbBuffIn: array<bv8>, sent: Status, received: Status)
      returns (status: Status)
      requires Valid() && rx.Valid() && usbBuffIn != rx.buff
      requires currentInterfaceAlternateSetting as object != rx.pos as object
      requires currentInterfaceAlternateSetting as object != usbBuffIn as object
      requires streamInPacketSize <= usbBuffIn.Length
      requires Capture.RxFeedbackNormal + Capture.RxFeedbackThStep <= usbBuffIn.Length
      modifies currentInterfaceAlternateSetting, rx, rx.pos, usbBuffIn
      ensures Valid() && State() == InterfaceRequest(old(State()), value).1
      ensures status == if StartsStream(old(State()), value, StreamInInterfaceIndex) then sent
                        else if StartsStream(old(State()), value, StreamOutInterfaceIndex) then received
                        else InterfaceRequest(old(State()), value).0
      ensures StartsStream(old(State()), value, StreamInInterfaceIndex) ==>
                rx.Valid() && PulledOnePacket(rx, usbBuffIn, old(rx.Ctx()), old(rx.Rings()), old(rx.Pos()), old(usbBuffIn[..]), streamInPacketSize)
      ensures !StartsStream(old(State()), value, StreamInInterfaceIndex) ==> unchanged(rx, rx.pos, usbBuffIn)
    {
      ghost var s := State();
      var interface, alternateSetting := Descriptors.High(value), Descriptors.Low(value);
      status := Descriptors.InvalidRequest;
      if attach {
        if interface as nat == ControlInterfaceIndex {
          if (alternateSetting as nat) < ControlAlternateCount {
            currentInterfaceAlternateSetting[interface] := alternateSetting;
            status := Descriptors.Success;
          }
        } else if interface as nat == StreamInInterfaceIndex {
          if (alternateSetting as nat) < StreamAlternateCount {
            currentInterfaceAlternateSetting[interface] := alternateSetting;
            status := Descriptors.Success;
            if alternateSetting as nat == StreamAlternate1 {
              RefillIn(rx, usbBuffIn);
              status := sent;
            }
          }
        } else if interface as nat == StreamOutInterfaceIndex {
          if (alternateSetting as nat) < StreamAlternateCount {
            currentInterfaceAlternateSetting[interface] := alternateSetting;
            status := Descriptors.Success;
            if alternateSetting as nat == StreamAlternate1 {
              status := received;
            }
          }
        }
      }
      assert State() == InterfaceRequest(s, value).1;
    }

    /** Fills one IN packet of the current packet size from capture. */
    method RefillIn(rx: Capture.RxBridge, usbBuffIn: array<bv8>)
      requires Valid() && rx.Valid() && usbBuffIn != rx.buff
      requires streamInPacketSize <= usbBuffIn.Length
      requires Capture.RxFeedbackNormal + Capture.RxFeedbackThStep <= usbBuffIn.Length
      modifies rx, rx.pos, usbBuffIn
      ensures rx.Valid() &&
              PulledOnePacket(rx, usbBuffIn, old(rx.Ctx()), old(rx.Rings()), old(rx.Pos()), old(usbBuffIn[..]), streamInPacketSize)
    {
      PacketSizesWhole(highSpeed, streamInPacketSize, streamOutPacketSize);
      var _ := rx.Pull(usbBuffIn, streamInPacketSize);
    }

    /**
     * The completion of an IN transfer: only while attached, and only when
     * a whole packet went out, is the next packet filled from capture and
     * sent; the status is then what the send returned (`sent`), and
     * otherwise the request is refused and capture is not touched.
     */
    method StreamSendResponse(rx: Capture.RxBridge, usbBuffIn: array<bv8>, length: u32, sent: Status)
      returns (status: Status)
      requires Valid() && rx.Valid() && usbBuffIn != rx.buff
      requires streamInPacketSize <= usbBuffIn.Length
      requires Capture.RxFeedbackNormal + Capture.RxFeedbackThStep <= usbBuffIn.Length
      modifies rx, rx.pos, usbBuffIn
      ensures status == if attach && length == streamInPacketSize then sent else Descriptors.InvalidRequest
      ensures attach && length == streamInPacketSize ==>
                rx.Valid() && PulledOnePacket(rx, usbBuffIn, old(rx.Ctx()), old(rx.Rings()), old(rx.Pos()), old(usbBuffIn[..]), streamInPacketSize)
      ensures !(attach && length == streamInPacketSize) ==> unchanged(rx, rx.pos, usbBuffIn)
    {
      status := Descriptors.InvalidRequest;
      if attach && length as nat == streamInPacketSize {
        RefillIn(rx, usbBuffIn);
        status := sent;
      }
    }

    /**
     * The completion of an OUT transfer: only while attached, and only when
     * the transfer was not cancelled, are the received bytes handed to
     * playback and the next transfer submitted; the status is then what the
     * submit returned (`received`), and otherwise the request is refused and
     * playback is not touched. Playback requires whole frames.
     */
    method StreamRecvResponse(tx: Playback.TxBridge, usbBuffOut: array<bv8>, length: u32, cancelledLength: u32,
                              received: Status)
      returns (status: Status)
      requires Valid() && tx.Valid() && usbBuffOut != tx.buff
      requires attach && length != cancelledLength ==> length as nat % FrameLen == 0 && length as nat <= usbBuffOut.Length
      modifies tx, tx.buff, tx.pos
      ensures status == if attach && length != cancelledLength then received else Descriptors.InvalidRequest
      ensures attach && length != cancelledLength ==>
                tx.Valid() && tx.Ctx() == Playback.AfterPush(old(tx.Ctx()), length as nat) &&
                (Playback.Gated(old(tx.Ctx())) ==> tx.Rings() == old(tx.Rings()) && tx.Pos() == old(tx.Pos())) &&
                (!Playback.Gated(old(tx.Ctx())) ==>
                   tx.Rings() == Frames.Interleave(old(tx.Rings()), old(tx.Pos()), usbBuffOut[..], length as nat / FrameLen) &&
                   tx.Pos() == Frames.Advance(old(tx.Pos()), length as nat / FrameLen))
      ensures !(attach && length != cancelledLength) ==> unchanged(tx, tx.buff, tx.pos)
    {
      status := Descriptors.InvalidRequest;
      if attach && length != cancelledLength {
        tx.Push(usbBuffOut, length as nat);
        status := received;
      }
    }
  }

  /**
   * What one IN refill leaves behind: capture has advanced as one pull of
   * `size` bytes does, and the packet buffer holds the pulled bytes followed
   * by what it held before.
   */
  ghost predicate PulledOnePacket(rx: Capture.RxBridge, buf: array<bv8>, c: Capture.RxCtx, R: seq<seq<bv8>>,
                                  P: seq<int>, old_buf: seq<bv8>, size: nat)
    reads rx, rx.buff, rx.pos, buf
  {
    var n := Capture.PullSize(c, size);
    rx.Sized() && Frames.Shaped(R, P) && n <= buf.Length == |old_buf| &&
    rx.Ctx() == Capture.AfterPull(c, size) && rx.Rings() == R &&
    rx.Pos() == Capture.PullCursors(c, P, size) &&
    buf[..n] == Capture.PullBytes(c, R, P, size) && buf[n..] == old_buf[n..]
  }
}
