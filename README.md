# tdm2usb in Dafny

A model of the core of the tdm2usb firmware. The firmware bridges 16 channels of
32-bit, 48 kHz TDM audio to USB Audio Class 2.0. Two serial-audio instances
each carry eight channels. Audio runs in two directions:

- **Capture** (serial audio in, USB isochronous IN out). Receive DMA fills four
  slots per instance. Each USB IN packet is pulled out of the rings frame by
  frame. Its length is the implicit feedback: one 64-byte frame more than the
  nominal 384 bytes when the rings run full, one frame less when they run empty.
- **Playback** (USB isochronous OUT in, serial audio out). Each received packet
  is pushed into the rings. Transmit DMA plays them. An explicit feedback value
  asks the host to send a little slower or a little faster.

Around the two bridges the model covers:

- the legacy recorder's circular read;
- the USB descriptor getters;
- the speed switch that patches every streaming endpoint descriptor for the
  bus speed;
- the device-level state handler: bus reset, configuration and alternate
  settings;
- the gates that decide whether a completed transfer is refilled or resubmitted.

Modules:

| module | file | models |
|---|---|---|
| `Machine` | machine.dfy | fixed-width integers; 64-bit wrap-around; `memcpy`/`bzero` as methods |
| `Layout` | layout.dfy | the audio format and buffer geometry from i2s.h and usb_device_descriptor.h |
| `Frames` | frames.dfy | how a USB packet is split into per-instance blocks, and the ring cursors |
| `Fill` | fill.dfy | the fill level both bridges compute from their byte counters |
| `Capture` | capture.dfy | i2s_rx.c |
| `Playback` | playback.dfy | i2s_tx.c |
| `Recorder` | recorder.dfy | audio_data_i2s.c |
| `Descriptors` | descriptors.dfy | usb_device_descriptor.c |
| `Device` | device.dfy | `USB_DeviceCallback` and `USB_DeviceAudioCallback` in tdm2usb.c |

The bridges, the recorder, the descriptor tables and the device state are
classes. Their methods change their fields and arrays in place, as the C code
changes its statics.

- Each state-changing method is specified against a pure function of the old
  state (`AfterPull`, `AfterCallback`, `AfterPush`, `Patched`,
  `InterfaceRequest`, …).
- The properties the firmware relies on are lemmas about those functions.
- The rings are one flat byte array, laid out like the C two-dimensional array.
  Each method's contract states the ring contents as one byte string per
  instance (`Rings()`).
- DMA and USB interrupts are sequences of method calls. Hardware status, the
  bus speed and the results returned by the USB stack are parameters.

The 64-bit byte counters wrap explicitly (`Add64`, `Sub64`). The fill level
keeps the C conversions: an unsigned 64-bit difference, divided, then stored
in a 32-bit variable.

Three facts about the code that shape the model:

- SET_INTERFACE only records the alternate setting; it neither starts nor
  stops a bridge. Selecting alternate setting 1 of the IN interface sends one
  packet, and selecting it on the OUT interface submits one transfer
  (tdm2usb.c:724-771).
- A frame error in the receive callback stops and restarts capture, which
  clears all of its state (i2s_rx.c:231-250).
- DMA slots are 1536 bytes, as the macros give (i2s.h:88-93), not the 3072 in
  the comment at i2s.h:91.

## Model

| member | source | states |
|---|---|---|
| `Layout.MacroFormulas` | i2s.h:71-128 | every geometry constant equals the formula the headers derive it from (packet sizes, slot sizes, frame lengths, ring size) |
| `Layout.GeometryIsConsistent` | usb_device_descriptor.h:84-88 | a frame is one 32-byte block per instance; slots and rings hold whole blocks; a high-speed packet is whole frames; the full-speed packet is eight high-speed packets |
| `Frames.Cursor` | i2s_rx.c:219 | a ring cursor moved on by any number of blocks stays inside the ring, on a block boundary |
| `Frames.CursorStep` | i2s_tx.c:183 | moving one more block is the C update `(pos + 32) % ring size` |
| `Frames.CursorsDistinct` | i2s_rx.c:203-221 | within one lap of the ring, different frame counts give different cursors, so no block is read or written twice |
| `Frames.DeinterleaveAt` | i2s_rx.c:203-221 | byte `j` of instance `i`'s block of output frame `k` is byte `j` of instance `i`'s ring at its cursor moved on by `k` blocks |
| `Frames.WriteRingAt` | i2s_tx.c:176-185 | while a packet fits in one lap, the ring holds each frame's block for its instance at that frame's cursor |
| `Frames.WriteRingElsewhere` | i2s_tx.c:176-185 | ring bytes outside every written block keep their old values |
| `Frames.RoundTrip` | i2s_tx.c:176-185 | pushing a packet into the rings and pulling the same number of frames from the same cursors gives the packet back |
| `Fill.FillPacketsAsWritten` | i2s_rx.c:136-143 | the fill level as the C computes it: the backlog divided by 384 when the producer is ahead; the 64-bit wrapped difference, divided and truncated to 32 bits, when the consumer is ahead |
| `Fill.FillPackets` | i2s_rx.c:136-143 | the intended fill level: equal to the as-written one while the producer is ahead, and 0 once the consumer has caught up or overtaken it |
| `Fill.FillPacketsAsWrittenNotMonotone` | i2s_tx.c:128 | as written, the level falls from 2863311530 to 9 as the producer moves from 3072 to 6592 bytes against 3136 consumed |
| `Fill.FillPacketsMonotone` | i2s_tx.c:128 | with the corrected fill level, more bytes produced, with the same consumption, never lower the level, while the backlog is below 384·2^32 bytes |
| `Fill.OverdrawnReadsAsFull` | i2s_rx.c:143 | a consumer 64 bytes ahead reads as 2863311530 packets as written, and as 0 corrected |
| `Capture.RxConstantFormulas` | i2s_rx.c:68-72 | the capture thresholds, step, nominal size and restart baseline equal their macro formulas |
| `Capture.ImplicitSize` | i2s_rx.c:146-158 | the packet length is a whole number of frames, between 320 and 448 bytes |
| `Capture.ImplicitFeedback` | i2s_rx.c:134-159 | the corrected packet length: a whole number of frames in 320..448; equal to the as-written choice on `FillPacketsAsWritten` while the producer is ahead; 320 once the consumer is ahead |
| `Capture.ImplicitFeedbackSteers` | i2s_rx.c:134-159 | with the corrected fill level: at least 9 packets of backlog gives 448 bytes; fewer than 5, or the consumer ahead, gives 320; anything between gives 384 |
| `Capture.ImplicitFeedbackMonotone` | i2s_rx.c:143-158 | with the corrected fill level, a fuller ring never yields a shorter packet, while the backlog is below 384·2^32 bytes |
| `Capture.CoherentPreserved` | i2s_rx.c:170-201 | callbacks, pulls and cleanup keep the start-up flags ordered: USB starts only after DMA has |
| `Capture.StartUp` | i2s_rx.c:269-285 | from a clean start, pulls are silent until the second slot completion; that completion restarts the counters at 3072 written, 0 read, without adding a slot |
| `Capture.FirstPullIsNominal` | i2s_rx.c:185-201 | the first real pull restarts the counters at the baseline and returns exactly 384 bytes |
| `Capture.StaysStarted` | i2s_rx.c:170 | once USB has started, no pull is silent again until cleanup |
| `Capture.ProducerIsNotCapped` | i2s_rx.c:285 | nothing caps the write counter: five completions with no pull count 7680 bytes in flight, more than the rings hold |
| `Capture.StalledCaptureSpeedsUpAsWritten` | i2s_rx.c:143-148 | as written, after start-up and nine pulls with no completion the consumer is 64 bytes ahead and the next packet is 448 bytes |
| `Capture.StalledCaptureSlowsDown` | i2s_rx.c:152-155 | with the corrected fill level, a consumer that has caught up always gets the 320-byte packet |
| `Capture.RxBridge.Cleanup` | i2s_rx.c:294-307 | the slot index, both flags, both counters and every cursor become 0, and every ring byte is 0 |
| `Capture.RxBridge.Stop` | i2s_rx.c:312-320 | receive DMA is stopped and the bridge is left clean |
| `Capture.RxBridge.Start` | i2s_rx.c:325-336 | the bridge is cleaned and receive DMA is armed |
| `Capture.RxBridge.CheckReset` | i2s_rx.c:231-250 | resets exactly when some instance reports a frame error; a reset leaves DMA armed and the bridge clean; otherwise nothing changes |
| `Capture.RxBridge.Callback` | i2s_rx.c:257-286 | on a frame error the bridge restarts clean; otherwise the scalar state becomes `AfterCallback` of the old one, and the rings and cursors are untouched |
| `Capture.RxBridge.Pull` | i2s_rx.c:166-226 | returns `PullSize`, a whole number of frames; the state becomes `AfterPull`; silent pulls zero the first `size` bytes; real pulls copy `PullBytes` (the deinterleaved rings) and advance the cursors; the rest of the buffer and the rings are untouched |
| `Capture.RxBridge.PullFrames` | i2s_rx.c:203-221 | copies the first `frames` frames out of the rings into the buffer and advances each cursor by `frames` blocks |
| `Playback.TxConstantFormulas` | i2s_tx.c:42-47 | the thresholds, step and nominal feedback equal their macro formulas; the nominal feedback is (384/64) << 13 |
| `Playback.FeedbackFor` | i2s_tx.c:130-144 | below nominal exactly when the fill is at least 9; above nominal exactly when it is at most 4; always within one step of nominal |
| `Playback.ExplicitFeedback` | i2s_tx.c:119-145 | the corrected feedback: within one step of NORMAL; equal to the as-written choice on `FillPacketsAsWritten` while the producer is ahead; NORMAL+1 once the consumer is ahead |
| `Playback.ExplicitFeedbackSteers` | i2s_tx.c:119-145 | with the corrected fill level: at least 9 packets of backlog asks the host to slow down; fewer than 5, or the consumer ahead, asks it to speed up; otherwise nominal |
| `Playback.ExplicitFeedbackAntitone` | i2s_tx.c:128-144 | with the corrected fill level, a fuller ring never asks the host for more data, while the backlog is below 384·2^32 bytes |
| `Playback.StartUp` | i2s_tx.c:169-174 | from a fresh start, pushes are dropped for the first three slot completions, and only the slot index moves |
| `Playback.StaysStarted` | i2s_tx.c:169-176 | once USB has started, no push is dropped again and callbacks keep it started |
| `Playback.DataBecomesValid` | i2s_tx.c:213-220 | data becomes valid on the first wrap of the slot index after USB started; that slot is not counted, and every later slot is |
| `Playback.CallbackCountsReads` | i2s_tx.c:196-221 | a callback adds 1536 to the read counter only when the data was already valid, and touches neither the write counter nor the feedback |
| `Playback.StarvedPlaybackSlowsDownAsWritten` | i2s_tx.c:128-134 | as written, a starved ring reads as full and the feedback drops below nominal |
| `Playback.StarvedPlaybackSpeedsUp` | i2s_tx.c:135-139 | with the corrected fill level, a consumer that has caught up always raises the feedback |
| `Playback.HsFeedbackRoundTrip` | i2s_tx.c:28-34 | the four high-speed bytes read little-endian are the value's 12-bit integer part in the high half and its 13-bit fraction, shifted up by 3, in the low half; a value below 2^25 is recovered |
| `Playback.FsFeedbackRoundTrip` | i2s_tx.c:35-40 | the three full-speed bytes are the value shifted left by 4, truncated to 24 bits; a value below 2^20 is recovered |
| `Playback.NominalFeedbackIs48kHz` | i2s_tx.c:46-47 | the nominal value encodes 6.0 samples per microframe at high speed and 48.0 samples per frame at full speed |
| `Playback.TxBridge.SetFeedback` | i2s_tx.c:119-145 | the feedback becomes `ExplicitFeedback` of the counters, from the corrected fill level; nothing else changes |
| `Playback.TxBridge.GetFeedback` | i2s_tx.c:109-114 | at high speed the buffer holds the four high-speed bytes; at full speed three bytes, with byte 3 left as it was; returns the buffer read as a little-endian word |
| `Playback.TxBridge.Start` | i2s_tx.c:239-266 | the slot index, counters, flags and cursors become 0, the rings become zeros, the feedback becomes nominal, and transmit DMA is started |
| `Playback.TxBridge.Stop` | i2s_tx.c:226-234 | only the started flag is cleared; counters, cursors and rings are left as they are |
| `Playback.TxBridge.Callback` | i2s_tx.c:196-221 | the scalar state becomes `AfterCallback` of the old one: the index rotates modulo 4 |
| `Playback.TxBridge.Push` | i2s_tx.c:152-190 | a gated push changes nothing; otherwise USB is started, the rings become `Interleave` of the packet at the old cursors, each cursor advances by the frame count, the write counter grows by `size`, and the feedback is recomputed |
| `Recorder.PositionAfter` | audio_data_i2s.c:75-83 | the position after a read stays in 0..1200, and in 1..1200 once a byte has been read |
| `Recorder.NextRead` | audio_data_i2s.c:77-82 | the byte a read takes next is at `(p + k) mod 1200`, and taking it moves the position one further |
| `Recorder.PositionAfterAdds` | audio_data_i2s.c:71-84 | reading `a` bytes and then `b` leaves the position that one read of `a + b` does |
| `Recorder.ReadsContinue` | audio_data_i2s.c:71-84 | a second read continues exactly where the first stopped |
| `Recorder.RecorderBuffer.GetBuffer` | audio_data_i2s.c:71-84 | output byte `k` is buffer byte `(p + k) mod 1200`; bytes past `size` are untouched; the position becomes `PositionAfter(p, size)` |
| `Recorder.RecorderBuffer.I2sCallback` | audio_data_i2s.c:93-100 | the first call resets the read position to 0; later calls change nothing |
| `Descriptors.SplitRoundTrip` | usb_device_descriptor.c:1169 | a 16-bit value is its low and high bytes read little-endian |
| `Descriptors.GetDeviceDescriptor` | usb_device_descriptor.c:1069-1075 | always succeeds with the 18-byte descriptor: type 1, USB 2.00, control packet size 64, VID 0x1FC9, PID 0x0097, release 1.01, one configuration |
| `Descriptors.GetConfigurationDescriptor` | usb_device_descriptor.c:1087-1097 | succeeds exactly when the requested configuration is below 1, with the whole table and its size, the `sizeof` the length macro at usb_device_descriptor.h:27 takes; otherwise the out-struct is left as it was |
| `Descriptors.TotalLengthBytes` | usb_device_descriptor.c:304-343 | the configuration's total length, 226, is sent as bytes 0xE2 0x00 |
| `Descriptors.DescriptorLengthFormulas` | usb_device_descriptor.c:304-323 | the total length is the sum the length macro writes out, and the audio-control cluster is 83 bytes |
| `Descriptors.AcHeader` | usb_device_descriptor.c:415-424 | the audio-control header is 9 bytes and carries its wTotalLength little-endian in bytes 6-7 |
| `Descriptors.AcHeaderLengthAsWrittenIsStale` | usb_device_descriptor.c:421-422 | the header as written announces 0x61 bytes; that is not the 83-byte cluster, but the cluster plus one one-channel feature unit (master plus one channel, 14 bytes) |
| `Descriptors.AcHeaderCorrectedCoversCluster` | usb_device_descriptor.c:415-424 | the corrected header announces exactly the header, two clock sources, two input terminals and two output terminals |
| `Descriptors.FirstLanguage` | usb_device_descriptor.c:1119-1131 | finds the first language with the requested ID, or reports that none has it |
| `Descriptors.GetStringDescriptor` | usb_device_descriptor.c:1109-1142 | the search loop's reply is `StringLookup`: index 0 gives the language record; another index succeeds only for the first matching language and an index below 15; otherwise refused with the out-struct untouched |
| `Descriptors.FirmwareStringLookup` | usb_device_descriptor.c:1043-1054 | for the device's list: index 0 gives the 4-byte record naming 0x0409; indices 1 to 14 in English (US) give their descriptor; every other request is refused |
| `Descriptors.SettingFor` | usb_device_descriptor.c:1161-1210 | a setting is written exactly for the IN 2, OUT 3 and feedback endpoint addresses; the feedback endpoint's check comes last and wins, then OUT |
| `Descriptors.PatchedKeepsWalk` | usb_device_descriptor.c:1159-1213 | the patched table can still be walked, and has the same endpoint fields |
| `Descriptors.PatchedOnlyTouchesMatchingEndpoints` | usb_device_descriptor.c:1161-1212 | a byte changes only if it is an offset 4-6 field of an endpoint descriptor on the walk whose address matches |
| `Descriptors.PatchedWritesSettings` | usb_device_descriptor.c:1163-1210 | every matching endpoint descriptor on the walk ends with its packet size little-endian in bytes 4-5 and its interval in byte 6 |
| `Descriptors.ServedTableCarriesSettings` | usb_device_descriptor.c:1087-1097 | GET_DESCRIPTOR of the configuration after a speed switch succeeds and serves the patched table with its size, whose matching endpoints carry that speed's packet size and interval |
| `Descriptors.LastSpeedWins` | usb_device_descriptor.c:1150-1239 | switching speed again overrides the earlier switch: the table depends only on the last speed, so the switch is idempotent |
| `Descriptors.WithSetting` | usb_device_descriptor.c:1215-1236 | an endpoint structure takes the packet size and interval of the setting and keeps its address and type |
| `Descriptors.DescriptorTables.SetSpeed` | usb_device_descriptor.c:1150-1239 | always succeeds; the table becomes `Patched` of the old one; the IN, OUT and feedback endpoint structures take their settings for the speed |
| `Descriptors.DescriptorTables.GetConfiguration` | usb_device_descriptor.c:1087-1097 | the configuration reply is `GetConfigurationDescriptor` of the table `SetSpeed` patches, so it serves the bytes last patched |
| `Descriptors.DescriptorTables.PatchConfiguration` | usb_device_descriptor.c:1155-1213 | the walk from the first byte to the last patches every endpoint descriptor it meets and leaves `Patched` of the old table |
| `Descriptors.DescriptorTables.PatchEndpoint` | usb_device_descriptor.c:1163-1210 | one endpoint descriptor's bytes 4-6 take the setting for its address, or nothing changes when none applies |
| `Device.ConfigurationRequest` | tdm2usb.c:705-723 | SET_CONFIGURATION succeeds exactly for 0 and 1: 0 detaches, 1 attaches, and the configuration reads back as the value; any other value is refused and changes nothing; the alternate settings are never touched; the state invariant is kept |
| `Device.InterfaceReply` | tdm2usb.c:780-790 | GET_INTERFACE succeeds exactly for interfaces below 3; the reply keeps the request's high byte and carries that interface's alternate setting in its low byte; a refused word is left as it was |
| `Device.InterfaceRequest` | tdm2usb.c:724-771 | SET_INTERFACE succeeds exactly while attached and for an alternate setting the interface has (1 for control, 2 for streaming); it stores only that interface's setting, and GET_INTERFACE with the same word then returns it; a refused request changes nothing; the invariant is kept |
| `Device.DetachedRefusesInterface` | tdm2usb.c:706-711 | after SET_CONFIGURATION(0) or a bus reset, every SET_INTERFACE is refused and changes nothing |
| `Device.InterfaceRequestsCommute` | tdm2usb.c:728-757 | requests for two different interfaces do not interfere |
| `Device.PacketSizesWhole` | tdm2usb.c:73-74 | the packet sizes in use are always whole frames, so a refill or a push only processes whole frames |
| `Device.AudioDevice.constructor` | tdm2usb.c:73-116 | the static initial state: detached, configuration 0, all alternate settings 0, full-speed packet sizes |
| `Device.AudioDevice.BusReset` | tdm2usb.c:680-704 | the alternate settings, attach and configuration become 0 and the reset reports success; a reported speed is recorded and the descriptors are patched for it; at high speed the packet sizes become the high-speed ones |
| `Device.AudioDevice.SetConfiguration` | tdm2usb.c:705-723 | the state becomes `ConfigurationRequest` of the old one; speed and packet sizes are untouched |
| `Device.AudioDevice.GetConfiguration` | tdm2usb.c:772-779 | returns the current configuration, which is 1 exactly when the device is attached |
| `Device.AudioDevice.GetInterface` | tdm2usb.c:780-790 | returns `InterfaceReply` of the current state |
| `Device.AudioDevice.SetInterface` | tdm2usb.c:724-771 | the state becomes `InterfaceRequest` of the old one; selecting alternate setting 1 of the IN interface pulls one packet from capture and reports the send's status; alternate setting 1 of OUT reports the submit's status; in every other case capture is untouched |
| `Device.AudioDevice.StreamSendResponse` | tdm2usb.c:631-638 | only while attached, and only after a whole packet went out, is one packet pulled from capture and the send's status returned; otherwise the request is refused and capture is untouched |
| `Device.AudioDevice.StreamRecvResponse` | tdm2usb.c:640-647 | only while attached, and only for a transfer that was not cancelled, are the received bytes pushed into playback and the submit's status returned; otherwise the request is refused and playback is untouched |

## Left out

- The hardware and SDK setup is not modelled. This covers serial-audio and DMA
  channel setup, board initialisation and clocks, `USB_DeviceApplicationInit`,
  the FreeRTOS tasks and `main`. It is register writes and vendor calls.
- DMA moving bytes into or out of the rings is not modelled: the hardware does
  it. The ring contents are whatever the arrays hold.
- Concurrency between the DMA and USB interrupts and `volatile` are not
  modelled. Interrupts are interleaved sequential method calls.
- USB stack calls (`USB_DeviceAudioSend`, `USB_DeviceAudioRecv`,
  `USB_DeviceClassGetSpeed`) are not modelled. Their results are parameters:
  `sent`, `received`, and `reported` (None when the speed query fails).
- `USB_DeviceAudioRequest` and the class-request branch of
  `USB_DeviceAudioCallback` are left out. They only hand out pointers to
  control values.
- The descriptor events of `USB_DeviceCallback` are left out. They forward to
  the getters, which are modelled, and the `NULL` checks on `param` are not
  modelled.
- The `USB_DEVICE_CONFIG_LPCIP3511HS` branch of the bus reset (speed query,
  speed switch, packet sizes) is modelled as compiled in. usb_device_config.h
  is not part of this model.
- The SCTimer/audio-PLL synchronous mode is left out. It is compiled out and
  reads capture registers.
- The disabled `USE_FILTER_32_DOWN` masking path is left out.
- Debug printing (`USB_InPrintInfo`, `USB_OutPrintInfo`) is left out.
- The string descriptor byte tables (usb_device_strings.h) are a parameter of
  `FirmwareStringLookup`. They are constant data.
- The feedback endpoint's number and settings, and the audio entity IDs, are
  defined in tdm2usb.h, which is not part of this model. They are parameters
  (`FeedbackEndpoint`).
- `USB_CANCELLED_TRANSFER_LENGTH` comes from the USB stack. It is the
  `cancelledLength` parameter.
- The IN and OUT packet buffers' sizes (`USB_MAX_PACKET_IN_SIZE`,
  `USB_MAX_PACKET_OUT_SIZE`) are not part of this model. The packet methods
  require the buffers to be large enough.
- Descriptors.DescriptorTables.SetSpeed: does not walk the firmware's literal
  configuration table. It walks any table that can be walked (`WalkOk`), which
  is a precondition.
- Descriptors.GetDeviceDescriptor: the descriptor is held as its 18 literal
  bytes, not built from the field macros.
- Descriptors.GetStringDescriptor: the language loop counter is 8 bits wide, so
  the list must have fewer than 256 languages. The firmware's list has one.
- Recorder.RecorderBuffer.GetBuffer: the loop counter is `uint8_t`, so `size`
  must be at most 255. Above that the C loop would not terminate.
- Capture.ImplicitFeedback: sized from the corrected fill level. When the
  consumer is ahead it gives 320 bytes, where i2s_rx.c:143 gives 448.
- Playback.ExplicitFeedback: computed from the corrected fill level. When
  the consumer is ahead it gives NORMAL+1, where i2s_tx.c:128 gives NORMAL−1.
- Capture.ImplicitFeedbackSteers: stated only for backlogs below 384·2^32
  bytes, where the 32-bit truncation of the packet count does not wrap, and
  stated for the corrected fill level (`Fill.FillPackets`); as written
  (i2s_rx.c:143) a consumer ahead reads as full (448 bytes), and the as-written
  level is not monotone across write = read (`Fill.FillPacketsAsWrittenNotMonotone`).
- Playback.ExplicitFeedbackSteers: stated only for backlogs below 384·2^32
  bytes, for the same reason, and
  stated for the corrected fill level (`Fill.FillPackets`); as written
  (i2s_tx.c:128) a consumer ahead reads as full (NORMAL−1), and the as-written
  level is not monotone across write = read (`Fill.FillPacketsAsWrittenNotMonotone`).
- Fill.FillPacketsMonotone: stated only while the larger backlog is below
  384·2^32 bytes, for the same reason, and
  stated for the corrected fill level (`Fill.FillPackets`); as written
  (i2s_rx.c:143 / i2s_tx.c:128) a consumer ahead reads as full (448 bytes, NORMAL−1), and the as-written
  level is not monotone across write = read (`Fill.FillPacketsAsWrittenNotMonotone`).
- Capture.ImplicitFeedbackMonotone: stated only while the larger backlog is
  below 384·2^32 bytes, for the same reason, and
  stated for the corrected fill level (`Fill.FillPackets`); as written
  (i2s_rx.c:143) a consumer ahead reads as full (448 bytes), and the as-written
  level is not monotone across write = read (`Fill.FillPacketsAsWrittenNotMonotone`).
- Playback.ExplicitFeedbackAntitone: stated only while the larger backlog is
  below 384·2^32 bytes, for the same reason, and
  stated for the corrected fill level (`Fill.FillPackets`); as written
  (i2s_tx.c:128) a consumer ahead reads as full (NORMAL−1), and the as-written
  level is not monotone across write = read (`Fill.FillPacketsAsWrittenNotMonotone`).
- Capture.RxBridge.Pull and Playback.TxBridge.Push: the bridges use the
  corrected fill level (`Fill.FillPackets`) of the first two findings below.
  The as-written one is `Fill.FillPacketsAsWritten`.
- Playback.TxBridge.SetFeedback: computes the feedback from the corrected fill
  level. When the write counter is behind the read counter it gives NORMAL+1,
  where the wrapping difference at i2s_tx.c:128 gives NORMAL−1.
- Device.AudioDevice.StreamSendResponse: `USB_AudioI2s2UsbBuffer`'s returned
  length is ignored, as in the code. The packet is sent with
  `streamInPacketSize` bytes.
- Device.AudioDevice.BusReset: the speed is a boolean, high speed or not. Any
  speed other than high selects the full-speed branch, as in the code.

## Findings

| source | as written | input that shows it | evidently intended | confidence | as-written member | corrected member |
|---|---|---|---|---|---|---|
| i2s_rx.c:143 | the fill level is `(write - read) / 384` in unsigned 64-bit arithmetic, truncated to 32 bits | start-up (write 3072, read 0), then nine IN pulls with no DMA completion: read reaches 3136 and the fill reads 2863311530 packets | a consumer ahead of the producer means an empty ring: fill 0 and a 320-byte packet | not executed; plausible after a DMA stall | `Capture.StalledCaptureSpeedsUpAsWritten` | `Capture.StalledCaptureSlowsDown` |
| i2s_tx.c:128 | the same wrapping difference in the playback feedback | start-up push of 384 bytes, two slot completions (read 1536), one more 384-byte push: write 768 < read 1536, and the feedback becomes NORMAL−1 | an empty ring asks the host to speed up: NORMAL+1 | not executed; plausible after a USB stall | `Playback.StarvedPlaybackSlowsDownAsWritten` | `Playback.StarvedPlaybackSpeedsUp` |
| usb_device_descriptor.c:421-422 | the audio-control header's wTotalLength is 0x61 (97) | the cluster that follows is one 9-byte header, two 8-byte clock sources, two 17-byte input terminals and two 12-byte output terminals: 83 bytes, and no feature unit | 0x0053: the total length of the class-specific audio-control descriptors (USB Audio Device Class 2.0, section 4.7.2) | not executed; 97 is exactly 83 plus a one-channel feature unit (master plus one channel, 14 bytes), evidently left over from a removed one | `Descriptors.AcHeaderLengthAsWrittenIsStale` | `Descriptors.AcHeaderCorrectedCoversCluster` |
