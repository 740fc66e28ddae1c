/**
 * Descriptor services of the audio device: the device, configuration and
 * string descriptor lookups the USB stack calls to answer GET_DESCRIPTOR
 * (section 9.4.3 of the USB 2.0 specification), and the speed switch that
 * walks the configuration descriptor and patches the endpoint descriptors
 * for high or full speed (section 9.6.6).
 */
module Descriptors {
  import opened Machine
  import opened Layout

  datatype Status = Success | InvalidRequest

  datatype Option<T> = None | Some(value: T)

  /** What a getter leaves in its out-struct: a descriptor and the length reported for it. */
  datatype Reply = Reply(buffer: seq<u8>, length: nat)

  /** Standard descriptor lengths and types (USB 2.0 tables 9-5, 9-8 and 9-13). */
  const DescLengthDevice: nat := 18
  const DescTypeDevice: u8 := 1
  const DescTypeConfigure: u8 := 2
  const DescTypeString: u8 := 3
  const DescTypeEndpoint: u8 := 5

  const UsbDeviceVid: u16 := 0x1FC9
  const UsbDevicePid: u16 := 0x0097
  const UsbSpecificBcdVersion: u16 := 0x0200
  const UsbDemoBcdVersion: u16 := 0x0101
  const ControlMaxPacketSize: u8 := 64
  const ConfigurationCount: nat := 1

  /** Configuration values below this one exist. */
  const ConfigureIndex: nat := 1

  const StringCount: nat := 15
  const LanguageEnglishUs: u16 := 0x0409

  const StreamInEndpoint: nat := 2
  const StreamOutEndpoint: nat := 3

  /** The low and the high byte of a 16-bit value. */
  function Low(x: u16): u8
  {
    x - 0x100 * High(x)
  }

  function High(x: u16): u8
  {
    x / 0x100
  }

  /** Splitting a 16-bit value into its two bytes and reading them back little-endian gives the value. */
  lemma SplitRoundTrip(x: u16)
    ensures Le16(Low(x), High(x)) == x
  {
  }

  /** A value's two bytes are the ones that read back little-endian to it. */
  lemma SplitOf(x: u16, lo: u8, hi: u8)
    requires Le16(lo, hi) == x
    ensures Low(x) == lo && High(x) == hi
  {
  }

  /**
   * The device descriptor table, its 16-bit fields split into bytes:
   * USB 2.00, no class at device level, 64-byte control endpoint, vendor
   * 0x1FC9, product 0x0097, release 1.01, string indices 1 to 3 and one
   * configuration.
   */
  const DeviceDescriptor: seq<u8> := [
    18, 1, 0x00, 0x02, 0x00, 0x00, 0x00, 64,
    0xC9, 0x1F, 0x97, 0x00, 0x01, 0x01, 0x01, 0x02, 0x03, 1]

  /**
   * The device descriptor lookup always succeeds. The reply holds the whole
   * descriptor: its length byte matches the length reported, and its
   * little-endian fields decode to USB 2.00, the vendor and product IDs and
   * release 1.01, with one configuration.
   */
  function GetDeviceDescriptor(): (r: (Status, Reply))
    ensures r.0 == Success
    ensures |r.1.buffer| == r.1.length == DescLengthDevice && r.1.buffer[0] as nat == r.1.length
    ensures r.1.buffer[1] == DescTypeDevice
    ensures Le16(r.1.buffer[2], r.1.buffer[3]) == UsbSpecificBcdVersion
    ensures r.1.buffer[7] == ControlMaxPacketSize
    ensures Le16(r.1.buffer[8], r.1.buffer[9]) == UsbDeviceVid
    ensures Le16(r.1.buffer[10], r.1.buffer[11]) == UsbDevicePid
    ensures Le16(r.1.buffer[12], r.1.buffer[13]) == UsbDemoBcdVersion
    ensures r.1.buffer[17] as nat == ConfigurationCount
  {
    var d := DeviceDescriptor;
    assert |d| == 18 && d[0] == 18 && d[1] == 1 && d[7] == 64 && d[17] == 1;
    assert d[2] == 0x00 && d[3] == 0x02 && d[8] == 0xC9 && d[9] == 0x1F;
    assert d[10] == 0x97 && d[11] == 0x00 && d[12] == 0x01 && d[13] == 0x01;
    (Success, Reply(d, DescLengthDevice))
  }

  /**
   * The configuration descriptor lookup: configurations below
   * `ConfigureIndex` get the whole table, with its size as length (the
   * length macro is the `sizeof` of the table); any other leaves the out-struct as it
   * was and is refused.
   */
  function GetConfigurationDescriptor(table: seq<u8>, configuration: nat, prior: Reply): (r: (Status, Reply))
    ensures r.0 == Success <==> configuration < ConfigureIndex
    ensures r.0 == Success ==> r.1.buffer == table && r.1.length == |table|
    ensures r.0 == InvalidRequest ==> r.1 == prior
  {
    if ConfigureIndex > configuration then (Success, Reply(table, |table|)) else (InvalidRequest, prior)
  }

  /**
   * What GET_DESCRIPTOR of the configuration returns once the table was
   * patched for a bus speed: the patched table, whose every matching
   * endpoint descriptor on the walk carries that speed's packet size and
   * interval.
   */
  lemma ServedTableCarriesSettings(s: seq<u8>, highSpeed: bool, fb: FeedbackEndpoint, h0: nat, prior: Reply)
    requires WalkOk(s, 0) && OnWalk(s, 0, h0) && h0 + 2 < |s| && s[h0 + 1] == DescTypeEndpoint
    requires SettingFor(s[h0 + 2], highSpeed, fb).Some?
    ensures var r, e := GetConfigurationDescriptor(Patched(s, highSpeed, fb), 0, prior), SettingFor(s[h0 + 2], highSpeed, fb).value;
            r.0 == Success && r.1.length == |s| && h0 + 7 <= |r.1.buffer| &&
            Le16(r.1.buffer[h0 + 4], r.1.buffer[h0 + 5]) == e.packetSize && r.1.buffer[h0 + 6] == e.interval
  {
    PatchedWritesSettings(s, highSpeed, fb, h0);
  }

  /** Lengths of the standard and class-specific descriptors the configuration is made of. */
  const DescLengthConfigure: nat := 9
  const DescLengthInterface: nat := 9
  const IsoDataEndpointLength: nat := 7
  const ClassSpecificEndpointLength: nat := 8
  const ControlInterfaceHeaderLength: nat := 9
  const InterfaceAssociationLength: nat := 8
  const ClockSourceLength: nat := 8
  const InputTerminalLength: nat := 17
  const OutputTerminalLength: nat := 12
  const AsInterfaceLength: nat := 16
  const TypeIFormatLength: nat := 6

  /** A feature unit descriptor for `ch` channels. */
  function FeatureUnitLength(ch: nat): nat
  {
    6 + (ch + 1) * 4
  }

  /** The bytes of the configuration, given by value; `DescriptorLengthFormulas` records how the table adds them up. */
  const TotalLength: nat := 226

  /** The bytes the AudioControl header covers: itself, two clock sources, two input and two output terminals. */
  const AcClusterLength: nat := 83

  /**
   * The configuration is the configuration, association and AudioControl
   * interface descriptors, the AudioControl header and units, then the
   * capture interface (two alternates, class-specific AS and format
   * descriptors) with its data endpoint and the playback interface with
   * its data and feedback endpoints, each followed by one class-specific
   * endpoint descriptor.
   */
  lemma DescriptorLengthFormulas()
    ensures AcClusterLength == ControlInterfaceHeaderLength + 2 * ClockSourceLength + 2 * InputTerminalLength + 2 * OutputTerminalLength
    ensures TotalLength ==
              DescLengthConfigure + InterfaceAssociationLength + DescLengthInterface + AcClusterLength +
              2 * DescLengthInterface + AsInterfaceLength + TypeIFormatLength + IsoDataEndpointLength + ClassSpecificEndpointLength +
              2 * DescLengthInterface + AsInterfaceLength + TypeIFormatLength + 2 * IsoDataEndpointLength + ClassSpecificEndpointLength
  {
  }

  /** The configuration header's wTotalLength bytes are the little-endian split of the total. */
  lemma TotalLengthBytes()
    ensures Low(TotalLength as u16) == 0xE2 && High(TotalLength as u16) == 0x00
    ensures Le16(Low(TotalLength as u16), High(TotalLength as u16)) as nat == TotalLength
  {
    SplitOf(226, 0xE2, 0x00);
  }

  /**
   * The class-specific AudioControl header (section 4.7.2 of the USB Audio
   * 2.0 specification): its wTotalLength covers the header and every clock
   * source, unit and terminal descriptor after it.
   */
  function AcHeader(totalLength: u16): (h: seq<u8>)
    ensures |h| == ControlInterfaceHeaderLength && h[0] as nat == |h|
    ensures Le16(h[6], h[7]) == totalLength
  {
    SplitRoundTrip(totalLength);
    [ControlInterfaceHeaderLength as u8, 0x24, 0x01, 0x00, 0x02, 0x08, Low(totalLength), High(totalLength), 0x00]
  }

  /** The wTotalLength the table writes into the AudioControl header. */
  const AcTotalAsWritten: u16 := 0x61

  /**
   * The table's header declares 97 bytes, but the descriptors it covers
   * take 83; 97 is what they would take with one more feature unit for a
   * single channel (the master control plus one channel, 14 bytes), which
   * the table does not have.
   */
  lemma AcHeaderLengthAsWrittenIsStale()
    ensures var w := AcHeader(AcTotalAsWritten); Le16(w[6], w[7]) == AcTotalAsWritten
    ensures AcTotalAsWritten != AcClusterLength && AcTotalAsWritten == AcClusterLength + FeatureUnitLength(1)
  {
    StaleLengthArithmetic();
  }

  /** 97 is 83 plus the 14 bytes of a one-channel feature unit. */
  lemma StaleLengthArithmetic()
    ensures AcTotalAsWritten != AcClusterLength && AcTotalAsWritten == AcClusterLength + FeatureUnitLength(1)
  {
  }

  /** The header with its wTotalLength computed from the descriptors it covers declares exactly their bytes. */
  lemma AcHeaderCorrectedCoversCluster()
    ensures var c := AcHeader(AcClusterLength as u16);
            Le16(c[6], c[7]) == ControlInterfaceHeaderLength + 2 * ClockSourceLength + 2 * InputTerminalLength + 2 * OutputTerminalLength
  {
    DescriptorLengthFormulas();
  }

  /** The string descriptors of one language, indexed by string index. */
  datatype Language = Language(strings: seq<seq<u8>>, languageId: u16)

  /** The language record (string index 0) and the languages the device offers. */
  datatype LanguageList = LanguageList(languageString: seq<u8>, languages: seq<Language>)

  /** Every language has a descriptor for every string index; the language loop counter is eight bits wide. */
  predicate LanguageListOk(list: LanguageList)
  {
    |list.languages| < 0x100 && forall i :: 0 <= i < |list.languages| ==> |list.languages[i].strings| == StringCount
  }

  /** The index of the first language with ID `id`, if any has it. */
  function FirstLanguage(langs: seq<Language>, id: u16): (i: Option<nat>)
    ensures i.Some? ==> i.value < |langs| && langs[i.value].languageId == id &&
                        forall j :: 0 <= j < i.value ==> langs[j].languageId != id
    ensures i.None? ==> forall j :: 0 <= j < |langs| ==> langs[j].languageId != id
  {
    if langs == [] then None
    else if langs[0].languageId == id then Some(0)
    else match FirstLanguage(langs[1..], id)
      case None =>
        assert forall j :: 1 <= j < |langs| ==> langs[j] == langs[1..][j - 1];
        None
      case Some(k) =>
        assert forall j :: 1 <= j <= k ==> langs[j] == langs[1..][j - 1];
        Some(k + 1)
  }

  /**
   * The string lookup: index 0 is the language record. Any other index is
   * found in the first language whose ID matches, if it is below the
   * string count; otherwise the request is refused and the out-struct left
   * as it was.
   */
  function StringLookup(list: LanguageList, stringIndex: u8, languageId: u16, prior: Reply): (r: (Status, Reply))
    requires LanguageListOk(list)
  {
    if stringIndex == 0 then (Success, Reply(list.languageString, |list.languageString|))
    else match FirstLanguage(list.languages, languageId)
      case Some(i) =>
        if stringIndex < StringCount then
          (Success, Reply(list.languages[i].strings[stringIndex], |list.languages[i].strings[stringIndex]|))
        else (InvalidRequest, prior)
      case None => (InvalidRequest, prior)
  }

  /** Searches the language list as the firmware does: stop at the first matching language. */
  method GetStringDescriptor(list: LanguageList, stringIndex: u8, languageId: u16, prior: Reply) returns (status: Status, reply: Reply)
    requires LanguageListOk(list)
    ensures (status, reply) == StringLookup(list, stringIndex, languageId, prior)
  {
    if stringIndex == 0 {
      return Success, Reply(list.languageString, |list.languageString|);
    }
    var id: u8 := 0;
    var index := StringCount;
    while id as nat < |list.languages|
      invariant id as nat <= |list.languages| && index == StringCount
      invariant forall j :: 0 <= j < id as nat ==> list.languages[j].languageId != languageId
    {
      if languageId == list.languages[id].languageId {
        if stringIndex as nat < StringCount {
          index := stringIndex as nat;
        }
        break;
      }
      id := id + 1;
    }
    if index == StringCount {
      return InvalidRequest, prior;
    }
    var s := list.languages[id].strings[index];
    status, reply := Success, Reply(s, |s|);
  }

  /** The language record: a four-byte string descriptor holding the one language ID, little-endian. */
  const StringNull0: seq<u8> := [2 + 2, DescTypeString, 0x09, 0x04]

  /** The device's language list around its fifteen string descriptors. */
  function FirmwareLanguages(strings: seq<seq<u8>>): LanguageList
  {
    LanguageList(StringNull0, [Language(strings, LanguageEnglishUs)])
  }

  /**
   * For the device's list: index 0 always yields the language record,
   * which names English (US); indices 1 to 14 succeed for that language
   * and yield their descriptor; any other request is refused.
   */
  lemma FirmwareStringLookup(strings: seq<seq<u8>>, stringIndex: u8, languageId: u16, prior: Reply)
    requires |strings| == StringCount
    ensures LanguageListOk(FirmwareLanguages(strings))
    ensures var r := StringLookup(FirmwareLanguages(strings), stringIndex, languageId, prior);
            (stringIndex == 0 ==> r == (Success, Reply(StringNull0, 4)) && Le16(StringNull0[2], StringNull0[3]) == LanguageEnglishUs) &&
            (0 < stringIndex as nat < StringCount && languageId == LanguageEnglishUs ==>
               r == (Success, Reply(strings[stringIndex], |strings[stringIndex]|))) &&
            (stringIndex != 0 && (languageId != LanguageEnglishUs || stringIndex as nat >= StringCount) ==>
               r == (InvalidRequest, prior))
  {
    assert FirmwareLanguages(strings).languages[1..] == [];
  }

  /** Packet size and polling interval of one endpoint at one speed. */
  datatype EndpointSetting = EndpointSetting(packetSize: u16, interval: u8)

  /** The explicit-feedback endpoint: its number, and its settings at high and at full speed. */
  datatype FeedbackEndpoint = FeedbackEndpoint(number: nat, hs: EndpointSetting, fs: EndpointSetting)

  function InSetting(highSpeed: bool): EndpointSetting
  {
    if highSpeed then EndpointSetting(HsIsoInPacketSize as u16, HsIsoInInterval as u8)
    else EndpointSetting(FsIsoInPacketSize as u16, FsIsoInInterval as u8)
  }

  function OutSetting(highSpeed: bool): EndpointSetting
  {
    if highSpeed then EndpointSetting(HsIsoOutPacketSize as u16, HsIsoOutInterval as u8)
    else EndpointSetting(FsIsoOutPacketSize as u16, FsIsoOutInterval as u8)
  }

  function FeedbackSetting(fb: FeedbackEndpoint, highSpeed: bool): EndpointSetting
  {
    if highSpeed then fb.hs else fb.fs
  }

  /**
   * An endpoint address names endpoint `number` in direction IN (`dirIn`)
   * or OUT: the number is the low four bits, the direction the top bit.
   */
  predicate AddressIs(address: u8, number: nat, dirIn: bool)
  {
    address % 0x10 == number && address / 0x80 == (if dirIn then 1 else 0)
  }

  /**
   * The setting the speed switch writes into an endpoint descriptor with
   * this address. The firmware checks the streaming IN endpoint, the
   * streaming OUT endpoint and the feedback endpoint in that order, each
   * overwriting the same fields, so the last match wins.
   */
  function SettingFor(address: u8, highSpeed: bool, fb: FeedbackEndpoint): (e: Option<EndpointSetting>)
    ensures e.Some? <==> AddressIs(address, fb.number, true) || AddressIs(address, StreamOutEndpoint, false) ||
                         AddressIs(address, StreamInEndpoint, true)
    ensures AddressIs(address, fb.number, true) ==> e == Some(FeedbackSetting(fb, highSpeed))
    ensures !AddressIs(address, fb.number, true) && AddressIs(address, StreamOutEndpoint, false) ==> e == Some(OutSetting(highSpeed))
  {
    if AddressIs(address, fb.number, true) then Some(FeedbackSetting(fb, highSpeed))
    else if AddressIs(address, StreamOutEndpoint, false) then Some(OutSetting(highSpeed))
    else if AddressIs(address, StreamInEndpoint, true) then Some(InSetting(highSpeed))
    else None
  }

  /**
   * Walking from offset `h` by each descriptor's bLength reaches the last
   * byte without a zero-length descriptor, and every endpoint descriptor on
   * the way is whole (seven bytes at least).
   */
  ghost predicate WalkOk(s: seq<u8>, h: nat)
    decreases |s| - h
  {
    h + 1 >= |s| ||
    (s[h] > 0 && (s[h + 1] == DescTypeEndpoint ==> 7 <= s[h] as nat && h + 7 <= |s|) && WalkOk(s, h + s[h] as nat))
  }

  /** Offset `h0` is the start of a descriptor on the walk from offset `h`. */
  ghost predicate OnWalk(s: seq<u8>, h: nat, h0: nat)
    decreases |s| - h
  {
    h + 1 < |s| && s[h] > 0 && h <= h0 && (h == h0 || OnWalk(s, h + s[h] as nat, h0))
  }

  /**
   * The endpoint descriptor on the walk from `h` whose wMaxPacketSize or
   * bInterval field (offsets 4 to 6) holds byte `q`, if there is one.
   */
  function EndpointFieldOwner(s: seq<u8>, h: nat, q: nat): (o: Option<nat>)
    requires q < |s|
    ensures o.Some? ==> h <= o.value && o.value + 4 <= q < o.value + 7 && s[o.value + 1] == DescTypeEndpoint
    decreases |s| - h
  {
    if h + 1 >= |s| || s[h] == 0 then None
    else if s[h + 1] == DescTypeEndpoint && h + 4 <= q < h + 7 then Some(h)
    else EndpointFieldOwner(s, h + s[h] as nat, q)
  }

  /** Byte `q` (offset 4, 5 or 6 of the endpoint descriptor at `h0`) after the patch for `setting`. */
  function FieldByte(s: seq<u8>, h0: nat, q: nat, setting: Option<EndpointSetting>): u8
    requires q < |s|
  {
    match setting
      case None => s[q]
      case Some(e) => if q == h0 + 4 then Low(e.packetSize) else if q == h0 + 5 then High(e.packetSize) else e.interval
  }

  /** Byte `q` of the configuration descriptor after the speed switch. */
  function PatchedByte(s: seq<u8>, highSpeed: bool, fb: FeedbackEndpoint, q: nat): u8
    requires q < |s|
  {
    match EndpointFieldOwner(s, 0, q)
      case None => s[q]
      case Some(h0) => FieldByte(s, h0, q, SettingFor(s[h0 + 2], highSpeed, fb))
  }

  /** The configuration descriptor after the speed switch. */
  function Patched(s: seq<u8>, highSpeed: bool, fb: FeedbackEndpoint): (r: seq<u8>)
    ensures |r| == |s|
  {
    seq(|s|, q requires 0 <= q < |s| => PatchedByte(s, highSpeed, fb, q))
  }

  /** No endpoint field owned by a descriptor at or after `h` lies before `h`. */
  lemma {:induction false} OwnerBelow(s: seq<u8>, h: nat, q: nat)
    requires q < |s| && q < h
    ensures EndpointFieldOwner(s, h, q) == None
    decreases |s| - h
  {
    if !(h + 1 >= |s| || s[h] == 0) {
      OwnerBelow(s, h + s[h] as nat, q);
    }
  }

  /**
   * Inside the descriptor at `h`, a byte belongs to that descriptor's
   * endpoint fields or to none; behind it, ownership is decided by the rest
   * of the walk.
   */
  lemma OwnerStep(s: seq<u8>, h: nat, q: nat)
    requires WalkOk(s, h) && h + 1 < |s| && q < |s|
    ensures h <= q < h + s[h] as nat ==>
              EndpointFieldOwner(s, h, q) == if s[h + 1] == DescTypeEndpoint && h + 4 <= q < h + 7 then Some(h) else None
    ensures h + s[h] as nat <= q ==> EndpointFieldOwner(s, h, q) == EndpointFieldOwner(s, h + s[h] as nat, q)
  {
    if h <= q < h + s[h] as nat && !(s[h + 1] == DescTypeEndpoint && h + 4 <= q < h + 7) {
      OwnerBelow(s, h + s[h] as nat, q);
    }
  }

  /** The walk from `h` is whole from every descriptor on it, and decides ownership of the bytes at and after that descriptor alike. */
  lemma {:induction false} OwnerFromWalk(s: seq<u8>, h: nat, h0: nat, q: nat)
    requires WalkOk(s, h) && OnWalk(s, h, h0) && h0 <= q < |s|
    ensures WalkOk(s, h0)
    ensures EndpointFieldOwner(s, h, q) == EndpointFieldOwner(s, h0, q)
    decreases |s| - h
  {
    if h != h0 {
      OwnerFromWalk(s, h + s[h] as nat, h0, q);
      OwnerStep(s, h, q);
    }
  }

  /** The owner of an endpoint field is a descriptor on the walk. */
  lemma {:induction false} OwnerOnWalk(s: seq<u8>, h: nat, q: nat)
    requires q < |s| && EndpointFieldOwner(s, h, q).Some?
    ensures OnWalk(s, h, EndpointFieldOwner(s, h, q).value)
    decreases |s| - h
  {
    if !(s[h + 1] == DescTypeEndpoint && h + 4 <= q < h + 7) {
      OwnerOnWalk(s, h + s[h] as nat, q);
    }
  }

  /**
   * Two tables that agree outside the endpoint fields of `s` have the same
   * walk: both are whole and they have the same endpoint fields.
   */
  lemma {:induction false} WalkStable(s: seq<u8>, t: seq<u8>, h: nat)
    requires WalkOk(s, h) && |t| == |s|
    requires forall q {:trigger EndpointFieldOwner(s, h, q)} :: h <= q < |s| && EndpointFieldOwner(s, h, q) == None ==> t[q] == s[q]
    ensures WalkOk(t, h)
    ensures forall q :: h <= q < |s| ==> EndpointFieldOwner(t, h, q) == EndpointFieldOwner(s, h, q)
    decreases |s| - h
  {
    if h + 1 < |s| {
      var next := h + s[h] as nat;
      StableBeyond(s, t, h, next);
      WalkStable(s, t, next);
      StableOwners(s, t, h, next);
    }
  }

  /** What agrees outside the endpoint fields from `h` on agrees outside those from the next descriptor on. */
  lemma StableBeyond(s: seq<u8>, t: seq<u8>, h: nat, next: nat)
    requires WalkOk(s, h) && h + 1 < |s| && |t| == |s| && next == h + s[h] as nat
    requires forall q {:trigger EndpointFieldOwner(s, h, q)} :: h <= q < |s| && EndpointFieldOwner(s, h, q) == None ==> t[q] == s[q]
    ensures forall q {:trigger EndpointFieldOwner(s, next, q)} :: next <= q < |s| && EndpointFieldOwner(s, next, q) == None ==> t[q] == s[q]
  {
    forall q | next <= q < |s| && EndpointFieldOwner(s, next, q) == None
      ensures t[q] == s[q]
    {
      OwnerStep(s, h, q);
    }
  }

  /** Agreement outside the endpoint fields from `h` on and equal ownership behind the descriptor at `h` give equal ownership from `h` on. */
  lemma StableOwners(s: seq<u8>, t: seq<u8>, h: nat, next: nat)
    requires WalkOk(s, h) && h + 1 < |s| && |t| == |s| && next == h + s[h] as nat
    requires forall q {:trigger EndpointFieldOwner(s, h, q)} :: h <= q < |s| && EndpointFieldOwner(s, h, q) == None ==> t[q] == s[q]
    requires WalkOk(t, next)
    requires forall q :: next <= q < |s| ==> EndpointFieldOwner(t, next, q) == EndpointFieldOwner(s, next, q)
    ensures WalkOk(t, h)
    ensures forall q :: h <= q < |s| ==> EndpointFieldOwner(t, h, q) == EndpointFieldOwner(s, h, q)
  {
    OwnerStep(s, h, h);
    OwnerStep(s, h, h + 1);
    assert t[h] == s[h] && t[h + 1] == s[h + 1];
    assert WalkOk(t, h);
    forall q | h <= q < |s|
      ensures EndpointFieldOwner(t, h, q) == EndpointFieldOwner(s, h, q)
    {
      StableOwnerAt(s, t, h, next, q);
    }
  }

  /** Byte `q` has the same owner in both tables when their descriptors at `h` start alike. */
  lemma StableOwnerAt(s: seq<u8>, t: seq<u8>, h: nat, next: nat, q: nat)
    requires WalkOk(s, h) && WalkOk(t, h) && h + 1 < |s| && |t| == |s| && next == h + s[h] as nat
    requires t[h] == s[h] && t[h + 1] == s[h + 1] && h <= q < |s|
    requires next <= q ==> EndpointFieldOwner(t, next, q) == EndpointFieldOwner(s, next, q)
    ensures EndpointFieldOwner(t, h, q) == EndpointFieldOwner(s, h, q)
  {
    OwnerStep(s, h, q);
    OwnerStep(t, h, q);
  }

  /** The patch keeps the walk: the patched table is whole and has the same endpoint fields. */
  lemma PatchedKeepsWalk(s: seq<u8>, highSpeed: bool, fb: FeedbackEndpoint)
    requires WalkOk(s, 0)
    ensures WalkOk(Patched(s, highSpeed, fb), 0)
    ensures forall q :: 0 <= q < |s| ==> EndpointFieldOwner(Patched(s, highSpeed, fb), 0, q) == EndpointFieldOwner(s, 0, q)
  {
    WalkStable(s, Patched(s, highSpeed, fb), 0);
  }

  /**
   * Only the wMaxPacketSize and bInterval fields of endpoint descriptors
   * whose address names one of the three streaming endpoints change.
   */
  lemma PatchedOnlyTouchesMatchingEndpoints(s: seq<u8>, highSpeed: bool, fb: FeedbackEndpoint, q: nat)
    requires q < |s| && Patched(s, highSpeed, fb)[q] != s[q]
    ensures var o := EndpointFieldOwner(s, 0, q);
            o.Some? && o.value + 4 <= q < o.value + 7 && s[o.value + 1] == DescTypeEndpoint &&
            SettingFor(s[o.value + 2], highSpeed, fb).Some?
  {
  }

  /**
   * Every matching endpoint descriptor on the walk ends up with the
   * setting for its endpoint and speed: wMaxPacketSize little-endian in
   * offsets 4-5, bInterval in offset 6.
   */
  lemma PatchedWritesSettings(s: seq<u8>, highSpeed: bool, fb: FeedbackEndpoint, h0: nat)
    requires WalkOk(s, 0) && OnWalk(s, 0, h0) && h0 + 2 < |s| && s[h0 + 1] == DescTypeEndpoint
    requires SettingFor(s[h0 + 2], highSpeed, fb).Some?
    ensures h0 + 7 <= |s|
    ensures var r, e := Patched(s, highSpeed, fb), SettingFor(s[h0 + 2], highSpeed, fb).value;
            Le16(r[h0 + 4], r[h0 + 5]) == e.packetSize && r[h0 + 6] == e.interval
  {
    OwnerFromWalk(s, 0, h0, h0);
    var e := SettingFor(s[h0 + 2], highSpeed, fb).value;
    FieldOwnedOnWalk(s, h0, h0 + 4);
    FieldOwnedOnWalk(s, h0, h0 + 5);
    FieldOwnedOnWalk(s, h0, h0 + 6);
    SplitRoundTrip(e.packetSize);
  }

  /** Offsets 4 to 6 of an endpoint descriptor on the walk are owned by that descriptor. */
  lemma FieldOwnedOnWalk(s: seq<u8>, h0: nat, q: nat)
    requires WalkOk(s, 0) && OnWalk(s, 0, h0) && WalkOk(s, h0) && h0 + 2 < |s| && s[h0 + 1] == DescTypeEndpoint
    requires h0 + 4 <= q < h0 + 7
    ensures q < |s| && EndpointFieldOwner(s, 0, q) == Some(h0)
  {
    OwnerFromWalk(s, 0, h0, q);
  }

  /** The endpoint address (offset 2) of an endpoint descriptor on the walk is no endpoint field. */
  lemma AddressNotField(s: seq<u8>, h0: nat, q: nat)
    requires WalkOk(s, 0) && q < |s| && EndpointFieldOwner(s, 0, q) == Some(h0)
    ensures EndpointFieldOwner(s, 0, h0 + 2) == None
  {
    OwnerOnWalk(s, 0, q);
    OwnerFromWalk(s, 0, h0, h0 + 2);
    OwnerStep(s, h0, h0 + 2);
  }

  /** Byte `q` after two switches is byte `q` after the second alone. */
  lemma LastSpeedWinsAt(s: seq<u8>, t: seq<u8>, first: bool, second: bool, fb: FeedbackEndpoint, q: nat)
    requires WalkOk(s, 0) && q < |s| && t == Patched(s, first, fb)
    requires EndpointFieldOwner(t, 0, q) == EndpointFieldOwner(s, 0, q)
    ensures PatchedByte(t, second, fb, q) == PatchedByte(s, second, fb, q)
  {
    match EndpointFieldOwner(s, 0, q)
      case None =>
      case Some(h0) => LastSpeedWinsInField(s, t, first, second, fb, q, h0);
  }

  /** An endpoint field after two switches holds what the second switch writes, or its original byte if neither writes it. */
  lemma LastSpeedWinsInField(s: seq<u8>, t: seq<u8>, first: bool, second: bool, fb: FeedbackEndpoint, q: nat, h0: nat)
    requires WalkOk(s, 0) && q < |s| && t == Patched(s, first, fb)
    requires EndpointFieldOwner(s, 0, q) == Some(h0) && EndpointFieldOwner(t, 0, q) == Some(h0)
    ensures PatchedByte(t, second, fb, q) == PatchedByte(s, second, fb, q)
  {
    AddressNotField(s, h0, q);
    assert t[h0 + 2] == s[h0 + 2];
    if SettingFor(s[h0 + 2], second, fb).None? {
      assert SettingFor(s[h0 + 2], first, fb).None?;
      assert t[q] == s[q];
    }
  }

  /**
   * Switching speed again overrides the earlier switch entirely: the table
   * depends only on the last speed, so applying the same speed twice is
   * the same as once.
   */
  lemma LastSpeedWins(s: seq<u8>, first: bool, second: bool, fb: FeedbackEndpoint)
    requires WalkOk(s, 0)
    ensures Patched(Patched(s, first, fb), second, fb) == Patched(s, second, fb)
  {
    var t := Patched(s, first, fb);
    PatchedKeepsWalk(s, first, fb);
    forall q | 0 <= q < |s|
      ensures Patched(t, second, fb)[q] == Patched(s, second, fb)[q]
    {
      LastSpeedWinsAt(s, t, first, second, fb, q);
    }
  }

  /** The table while the walk is at `h`: descriptors before `h` patched, the rest as they were. */
  ghost function PatchedUpTo(s: seq<u8>, highSpeed: bool, fb: FeedbackEndpoint, h: nat): (r: seq<u8>)
    ensures |r| == |s|
  {
    seq(|s|, q requires 0 <= q < |s| => if q < h then PatchedByte(s, highSpeed, fb, q) else s[q])
  }

  /** Table `c` with offsets 4 to 6 of the descriptor at `h` patched for `setting`. */
  function PatchedFields(c: seq<u8>, h: nat, setting: Option<EndpointSetting>): (r: seq<u8>)
    requires h + 7 <= |c|
    ensures |r| == |c|
  {
    seq(|c|, q requires 0 <= q < |c| => if h + 4 <= q < h + 7 then FieldByte(c, h, q, setting) else c[q])
  }

  /** The walk from 0 has reached the descriptor at `h`: ownership of the bytes from `h` on is decided from `h`. */
  ghost predicate WalkAt(s: seq<u8>, h: nat)
  {
    WalkOk(s, h) && forall q :: h <= q < |s| ==> EndpointFieldOwner(s, 0, q) == EndpointFieldOwner(s, h, q)
  }

  /** The walk starts at offset 0. */
  lemma WalkAtStart(s: seq<u8>)
    requires WalkOk(s, 0)
    ensures WalkAt(s, 0)
  {
  }

  /** One step of the walk: patching the descriptor at `h` if it is an endpoint extends the patched prefix over it. */
  lemma PatchStep(s: seq<u8>, highSpeed: bool, fb: FeedbackEndpoint, h: nat, next: nat)
    requires WalkAt(s, h) && h + 1 < |s| && next == h + s[h] as nat
    ensures WalkAt(s, next) && h < next
    ensures var c := PatchedUpTo(s, highSpeed, fb, h); c[h] == s[h] && c[h + 1] == s[h + 1]
    ensures s[h + 1] == DescTypeEndpoint ==>
              h + 7 <= |s| && PatchedUpTo(s, highSpeed, fb, h)[h + 2] == s[h + 2] &&
              PatchedFields(PatchedUpTo(s, highSpeed, fb, h), h, SettingFor(s[h + 2], highSpeed, fb)) == PatchedUpTo(s, highSpeed, fb, next)
    ensures s[h + 1] != DescTypeEndpoint ==> PatchedUpTo(s, highSpeed, fb, h) == PatchedUpTo(s, highSpeed, fb, next)
  {
    forall q | 0 <= q < |s|
      ensures PatchedUpTo(s, highSpeed, fb, next)[q] ==
              if s[h + 1] == DescTypeEndpoint && h + 4 <= q < h + 7 then FieldByte(s, h, q, SettingFor(s[h + 2], highSpeed, fb))
              else PatchedUpTo(s, highSpeed, fb, h)[q]
      ensures next <= q ==> EndpointFieldOwner(s, 0, q) == EndpointFieldOwner(s, next, q)
    {
      OwnerStep(s, h, q);
    }
  }

  /** At the end of the walk no byte is left to patch. */
  lemma PatchDone(s: seq<u8>, highSpeed: bool, fb: FeedbackEndpoint, h: nat)
    requires WalkAt(s, h) && h + 1 >= |s|
    ensures PatchedUpTo(s, highSpeed, fb, h) == Patched(s, highSpeed, fb)
  {
  }

  /** An entry of the firmware's endpoint tables; only packet size and interval are patched. */
  datatype Endpoint = Endpoint(address: u8, transferType: u8, maxPacketSize: u16, interval: u8)

  function WithSetting(ep: Endpoint, e: EndpointSetting): (r: Endpoint)
    ensures r.address == ep.address && r.transferType == ep.transferType
    ensures r.maxPacketSize == e.packetSize && r.interval == e.interval
  {
    ep.(maxPacketSize := e.packetSize, interval := e.interval)
  }

  /** The patchable descriptor memory: the configuration table and the streaming endpoint tables. */
  class DescriptorTables {
    const config: array<u8>
    const inEndpoints: array<Endpoint>
    const outEndpoints: array<Endpoint>
    const feedback: FeedbackEndpoint

    /** One capture endpoint; the playback endpoint and its feedback endpoint, as two distinct tables. */
    ghost predicate Valid()
    {
      inEndpoints.Length == 1 && outEndpoints.Length == 2 && inEndpoints != outEndpoints &&
      config as object != inEndpoints as object && config as object != outEndpoints as object
    }

    constructor (table: seq<u8>, inEp: Endpoint, outEp: Endpoint, fbEp: Endpoint, fb: FeedbackEndpoint)
      ensures Valid() && config[..] == table && inEndpoints[..] == [inEp] && outEndpoints[..] == [outEp, fbEp] && feedback == fb
      ensures fresh(config) && fresh(inEndpoints) && fresh(outEndpoints)
    {
      config := new u8[|table|](i requires 0 <= i < |table| => table[i]);
      inEndpoints := new Endpoint[1](_ => inEp);
      outEndpoints := new Endpoint[2](i => if i == 0 then outEp else fbEp);
      feedback := fb;
      new;
      assert outEndpoints[..] == [outEp, fbEp];
    }

    /** GET_DESCRIPTOR of the configuration, served from the patchable table itself. */
    method GetConfiguration(configuration: nat, prior: Reply) returns (status: Status, reply: Reply)
      ensures (status, reply) == GetConfigurationDescriptor(config[..], configuration, prior)
    {
      if ConfigureIndex > configuration {
        status, reply := Success, Reply(config[..], config.Length);
      } else {
        status, reply := InvalidRequest, prior;
      }
    }

    /**
     * Patches every matching endpoint descriptor of the configuration for
     * the bus speed, then the packet size and interval of the streaming
     * endpoint table entries.
     */
    method SetSpeed(highSpeed: bool) returns (status: Status)
      requires Valid() && WalkOk(config[..], 0)
      modifies config, inEndpoints, outEndpoints
      ensures status == Success
      ensures config[..] == Patched(old(config[..]), highSpeed, feedback)
      ensures inEndpoints[..] == [WithSetting(old(inEndpoints[0]), InSetting(highSpeed))]
      ensures outEndpoints[..] == [WithSetting(old(outEndpoints[0]), OutSetting(highSpeed)),
                                   WithSetting(old(outEndpoints[1]), FeedbackSetting(feedback, highSpeed))]
    {
      PatchConfiguration(highSpeed);
      var inEp, outEp, fbEp := InSetting(highSpeed), OutSetting(highSpeed), FeedbackSetting(feedback, highSpeed);
      inEndpoints[0] := inEndpoints[0].(maxPacketSize := inEp.packetSize, interval := inEp.interval);
      outEndpoints[0] := outEndpoints[0].(maxPacketSize := outEp.packetSize, interval := outEp.interval);
      outEndpoints[1] := outEndpoints[1].(maxPacketSize := fbEp.packetSize, interval := fbEp.interval);
      assert inEndpoints[..] == [WithSetting(old(inEndpoints[0]), inEp)];
      assert outEndpoints[..] == [WithSetting(old(outEndpoints[0]), outEp), WithSetting(old(outEndpoints[1]), fbEp)];
      status := Success;
    }

    /** The descriptor walk: every endpoint descriptor on it is patched for the bus speed. */
    method PatchConfiguration(highSpeed: bool)
      requires WalkOk(config[..], 0)
      modifies config
      ensures config[..] == Patched(old(config[..]), highSpeed, feedback)
    {
      ghost var s := config[..];
      var h := 0;
      WalkAtStart(s);
      while h + 1 < config.Length
        invariant config.Length == |s| && WalkAt(s, h)
        invariant config[..] == PatchedUpTo(s, highSpeed, feedback, h)
        decreases config.Length - h
      {
        PatchStep(s, highSpeed, feedback, h, h + s[h] as nat);
        var next := h + config[h] as nat;
        if config[h + 1] == DescTypeEndpoint {
          PatchEndpoint(h, highSpeed);
        }
        h := next;
      }
      PatchDone(s, highSpeed, feedback, h);
    }

    /** The three address checks and field writes for the endpoint descriptor at `h`. */
    method PatchEndpoint(h: nat, highSpeed: bool)
      requires h + 7 <= config.Length
      modifies config
      ensures config[..] == PatchedFields(old(config[..]), h, SettingFor(old(config[h + 2]), highSpeed, feedback))
    {
      var address := config[h + 2];
      if AddressIs(address, StreamInEndpoint, true) {
        var e := InSetting(highSpeed);
        config[h + 6] := e.interval;
        config[h + 4], config[h + 5] := Low(e.packetSize), High(e.packetSize);
      }
      if AddressIs(address, StreamOutEndpoint, false) {
        var e := OutSetting(highSpeed);
        config[h + 6] := e.interval;
        config[h + 4], config[h + 5] := Low(e.packetSize), High(e.packetSize);
      }
      if AddressIs(address, feedback.number, true) {
        var e := FeedbackSetting(feedback, highSpeed);
        config[h + 6] := e.interval;
        config[h + 4], config[h + 5] := Low(e.packetSize), High(e.packetSize);
      }
    }
  }
}
