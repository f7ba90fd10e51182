/** The Rust crate and the C firmware read the same messages: events from the PCI, and commands of a client. */
module LightsAgree {
  import opened Bytes
  import opened Decoder
  import opened Packets
  import opened RoundTrip
  import opened Wrappers
  import Bridge
  import CProtocol
  import Cals
  import Checksum
  import DecodersAgree
  import Firmware
  import Hex
  import Sals
  import StatusReports

  // ---- Events from the PCI --------------------------------------------------------------

  /** A message of a lighting application as the firmware records it. A ramp's rate is any code for its duration. */
  predicate SameMessage(sal: Sals.Sal, f: CProtocol.Fields) {
    match sal
    case LightingOn(_, group) => f.kind == CProtocol.LightingOn && f.group == group && f.level == 255
    case LightingOff(_, group) => f.kind == CProtocol.LightingOff && f.group == group && f.level == 0
    case LightingTerminateRamp(_, group) => f.kind == CProtocol.LightingTerminate && f.group == group
    case LightingRamp(_, group, duration, level) =>
      && f.kind == CProtocol.LightingRamp && f.group == group && f.level == level
      && Sals.RateToDuration(f.rampRate) == Some(duration)
    case _ => false
  }

  predicate IsLight(p: Packet) {
    p.PointToMultipoint? && Sals.IsLightingApp(p.application) && p.sals != []
  }

  predicate SameLight(p: Packet, f: CProtocol.Fields)
    requires IsLight(p)
  {
    && f.source == (if p.meta.source.Some? then p.meta.source.value else 0)
    && f.application == p.application && SameMessage(p.sals[0], f)
  }

  /** How a stream of lighting messages begins. */
  predicate BeginsWith(app: Byte, data: seq<Byte>, sal: Sals.Sal) {
    && |data| >= 2
    && match sal
       case LightingOn(a, group) => a == app && data[0] == 0x79 && data[1] == group
       case LightingOff(a, group) => a == app && data[0] == 0x01 && data[1] == group
       case LightingTerminateRamp(a, group) => a == app && data[0] == 0x09 && data[1] == group
       case LightingRamp(a, group, duration, level) =>
         && |data| >= 3 && a == app && data[1] == group && data[2] == level
         && data[0] !in {0x79, 0x01, 0x09} && Sals.RateToDuration(data[0]) == Some(duration)
       case _ => false
  }

  lemma FirstMessage(app: Byte, data: seq<Byte>)
    requires Sals.DecodeLighting(app, data) != []
    ensures BeginsWith(app, data, Sals.DecodeLighting(app, data)[0])
  {}

  /** Where the decoder found the first message of a frame. */
  predicate Layout(raw: seq<Byte>, p: Packet)
    requires IsLight(p)
  {
    && |raw| >= 6 && raw[0] % 8 == 5 && raw[2] == p.application
    && p.meta.source == (if raw[1] != 0 then Some(raw[1]) else None)
    && BeginsWith(p.application, raw[4..], p.sals[0])
  }

  lemma LightLayout(raw: seq<Byte>, checksum: bool, consumed: nat)
    requires raw != [] && DecodeBody(raw, checksum, true, false, None, consumed).Ok?
    requires IsLight(DecodeBody(raw, checksum, true, false, None, consumed).value.0)
    ensures Layout(raw, DecodeBody(raw, checksum, true, false, None, consumed).value.0)
  {
    var p := DecodeBody(raw, checksum, true, false, None, consumed).value.0;
    assert DecodePm(raw[2..], p.meta) == Ok(p);
    assert raw[2..][2..] == raw[4..];
    FirstMessage(p.application, raw[4..]);
  }

  lemma SameEvent(raw: seq<Byte>, p: Packet)
    requires IsLight(p) && Layout(raw, p)
    ensures SameLight(p, CProtocol.ResponseFields(raw)) && CProtocol.ResponseFields(raw).kind != CProtocol.Unknown
  {
    assert raw[4..][0] == raw[4] && raw[4..][1] == raw[5] && (|raw| >= 7 ==> raw[4..][2] == raw[6]);
  }

  lemma FirmwareReads(text: seq<Byte>, raw: seq<Byte>, p: Packet)
    requires 2 <= |text| <= 512 && Hex.AllDigits(text) && RawBytes(text, true, true) == Ok(raw)
    requires IsLight(p) && Layout(raw, p)
    ensures CProtocol.PciResponse(text).Some? && SameLight(p, CProtocol.PciResponse(text).value)
  {
    CProtocol.HexDecodersAgree(text, CProtocol.MAX_PACKET_SIZE);
    assert text[0] in text;
    SameEvent(raw, p);
    DecodersAgree.ResponseIs(text, Hex.Decode(text).value, raw);
  }

  lemma LightOfText(text: seq<Byte>)
    requires var d := DecodeText(Envelope(text, true, false, None), true, true, |text| + 2);
             d.packet.Some? && IsLight(d.packet.value)
    ensures RawBytes(text, true, true).Ok?
    ensures Layout(RawBytes(text, true, true).value,
                   DecodeText(Envelope(text, true, false, None), true, true, |text| + 2).packet.value)
  {
    LightLayout(RawBytes(text, true, true).value, true, |text| + 2);
  }

  /** Whatever frame of at most 512 digits the Rust client takes for lighting messages, the firmware reads its first
      message alike: source, application, group, what happens to the light, level and ramp. */
  lemma EventsReadAlike(text: seq<Byte>, tail: seq<Byte>)
    requires 2 <= |text| <= 512 && Hex.AllDigits(text)
    requires var d := DecodePacket(text + [CR, LF] + tail, true, true, true);
             d.packet.Some? && IsLight(d.packet.value)
    ensures CProtocol.PciResponse(text).Some?
    ensures SameLight(DecodePacket(text + [CR, LF] + tail, true, true, true).packet.value,
                      CProtocol.PciResponse(text).value)
  {
    LineFromPci(text, true, true, tail);
    LightOfText(text);
    FirmwareReads(text, RawBytes(text, true, true).value,
                  DecodePacket(text + [CR, LF] + tail, true, true, true).packet.value);
  }

  /** What the firmware makes of a point-to-multipoint frame of any other application: a clock message is told as one,
      the rest is refused. */
  lemma OtherEvents(raw: seq<Byte>, checksum: bool, consumed: nat)
    requires |raw| >= 5 && DecodeBody(raw, checksum, true, false, None, consumed).Ok?
    requires var p := DecodeBody(raw, checksum, true, false, None, consumed).value.0;
             p.PointToMultipoint? && !Sals.IsLightingApp(p.application)
    ensures var p, f := DecodeBody(raw, checksum, true, false, None, consumed).value.0, CProtocol.ResponseFields(raw);
            && (f.kind == CProtocol.ClockUpdate <==> p.application == Sals.APP_CLOCK)
            && (f.kind == CProtocol.Unknown <==> p.application != Sals.APP_CLOCK)
            && f.application == p.application
            && f.source == if p.meta.source.Some? then p.meta.source.value else 0
  {
    var p := DecodeBody(raw, checksum, true, false, None, consumed).value.0;
    assert DecodePm(raw[2..], p.meta) == Ok(p);
  }

  // ---- Commands of a client -------------------------------------------------------------

  function CodeOf(confirmation: Option<Byte>): Byte {
    if confirmation.Some? then confirmation.value else 0
  }

  lemma PartsOfLine(text: seq<Byte>, confirmation: Option<Byte>)
    requires |text| >= 2 && Hex.AllDigits(text)
    requires confirmation.Some? ==> confirmation.value in CONFIRMATION_CODES
    ensures CProtocol.EscapedParts([BACKSLASH] + Ended(text, confirmation)) == (CodeOf(confirmation), text)
  {
    var line := [BACKSLASH] + Ended(text, confirmation);
    ConfirmationCodesAreLetters();
    assert text[|text| - 1] in text;
    if confirmation.Some? {
      assert line[1..|line| - 1] == text && line[|line| - 1] == confirmation.value;
    } else {
      assert line[1..] == text && line[|line| - 1] == text[|text| - 1];
    }
  }

  lemma LineIsEscaped(line: seq<Byte>, code: Byte, text: seq<Byte>, bytes: seq<Byte>)
    requires |line| >= 3 && line[0] == BACKSLASH && CProtocol.EscapedParts(line) == (code, text)
    requires bytes != [] && CProtocol.HexValue(text, CProtocol.MAX_PACKET_SIZE) == Some(bytes)
    ensures var f := CProtocol.CommandFields(code, bytes);
            CProtocol.Command(line) == if f.kind == CProtocol.Unknown then None else Some(f)
  {}

  lemma EscapedLine(text: seq<Byte>, confirmation: Option<Byte>, bytes: seq<Byte>)
    requires |text| >= 2 && Hex.AllDigits(text) && Hex.Decode(text) == Ok(bytes) && |bytes| <= CProtocol.MAX_PACKET_SIZE
    requires confirmation.Some? ==> confirmation.value in CONFIRMATION_CODES
    ensures var f := CProtocol.CommandFields(CodeOf(confirmation), bytes);
            CProtocol.Command([BACKSLASH] + Ended(text, confirmation))
            == if f.kind == CProtocol.Unknown then None else Some(f)
  {
    CProtocol.HexDecodersAgree(text, CProtocol.MAX_PACKET_SIZE);
    PartsOfLine(text, confirmation);
    LineIsEscaped([BACKSLASH] + Ended(text, confirmation), CodeOf(confirmation), text, bytes);
  }

  /** What the firmware is to make of a client's packet behind a backslash. */
  predicate CommandRead(p: Packet, r: Option<CProtocol.Fields>) {
    match p
    case DeviceManagement(_, _, _) => r == None
    case PointToPoint(_, unit, _, _, _) => r.Some? && r.value.kind == CProtocol.PpOther && r.value.source == unit
    case PointToMultipoint(meta, app, sals) =>
      if sals == [] && !meta.checksum then r == None
      else if app == 0x38 then
        if sals == [] then r == None
        else r.Some? && r.value.application == app && SameMessage(sals[0], r.value)
      else if app == 0xFF then
        r.Some? && r.value.kind == CProtocol.StatusRequest &&
        if sals == [] then r.value.childApp == r.value.blockStart == 0 && !r.value.levelRequest
        else
          && sals[0].StatusRequest? && r.value.levelRequest == sals[0].levelRequest
          && r.value.childApp == sals[0].childApplication && r.value.blockStart == sals[0].group
      else if app == 0xDF then r.Some? && r.value.kind == CProtocol.ClockUpdate
      else r == None
    case _ => true
  }

  /** The bytes of the first message of a packet the wire has room for. */
  predicate FirstBytes(sal: Sals.Sal, data: seq<Byte>) {
    && |data| >= 2
    && match sal
       case StatusRequest(level, group, child) =>
         if level then |data| >= 4 && data[0] == 0x73 && data[2] == child && data[3] == group
         else |data| >= 3 && data[0] == 0x7A && data[1] == child && data[2] == group
       case ClockUpdateTime(_, _, _) => true
       case ClockUpdateDate(_, _, _) => true
       case ClockRequest => true
       case TemperatureBroadcast(_, _) => true
       case EnableSetNetworkVariable(_, _) => true
       case _ => BeginsWith(Sals.ApplicationOf(sal), data, sal)
  }

  lemma EncodedBegins(sal: Sals.Sal, rest: seq<Byte>)
    requires Sals.Representable(sal)
    ensures Sals.Encode(sal).Ok? && FirstBytes(sal, Sals.Encode(sal).value + rest)
  {
    if sal.LightingRamp? {
      var rate := Sals.DurationToRate(sal.duration);
      Sals.RampDurationRoundTrip(sal.duration);
      Sals.RateCodes(rate);
    }
  }

  lemma ApplicationIsKnown(sal: Sals.Sal)
    requires Sals.Representable(sal)
    ensures Sals.DecodeAll(Sals.ApplicationOf(sal), []).Ok?
  {}

  lemma MessageBytes(app: Byte, sals: seq<Sals.Sal>)
    requires sals != [] && forall s | s in sals :: Sals.Representable(s) && Sals.ApplicationOf(s) == app
    ensures Sals.EncodeAll(sals).Ok? && FirstBytes(sals[0], Sals.EncodeAll(sals).value)
  {
    ApplicationIsKnown(sals[0]);
    Sals.StreamRoundTrip(app, sals);
    EncodedBegins(sals[0], Sals.EncodeAll(sals[1..]).value);
  }

  /** A multipoint command, by its bytes, with or without a checksum behind them. */
  lemma MultipointFields(code: Byte, flags: Byte, app: Byte, body: seq<Byte>, sal: Sals.Sal)
    requires flags % 8 == 5 && FirstBytes(sal, body) && Sals.ApplicationOf(sal) == app && Sals.Representable(sal)
    ensures var f := CProtocol.CommandFields(code, [flags, app, 0] + body);
            && f.confCode == code
            && (app == 0x38 ==> f.application == app && SameMessage(sal, f))
            && (app == 0xFF ==> sal.StatusRequest? && f.kind == CProtocol.StatusRequest
                                && f.levelRequest == sal.levelRequest
                                && f.childApp == sal.childApplication && f.blockStart == sal.group)
            && (app == 0xDF ==> f.kind == CProtocol.ClockUpdate)
            && (app !in {0x38, 0xFF, 0xDF} ==> f.kind == CProtocol.Unknown)
  {
    var pkt := [flags, app, 0] + body;
    assert pkt[3] == body[0] && pkt[4] == body[1] && (|body| >= 3 ==> pkt[5] == body[2])
        && (|body| >= 4 ==> pkt[6] == body[3]);
  }

  lemma MoreBytes(sal: Sals.Sal, data: seq<Byte>, more: seq<Byte>)
    requires FirstBytes(sal, data)
    ensures FirstBytes(sal, data + more)
  {}

  /** The bytes of a packet: its header, its payload, and a checksum if it has one. */
  function Sum(p: Packet): seq<Byte>
    requires p.Addressed() && Payload(p).Ok?
  {
    if p.meta.checksum then [Checksum.Compute(HeaderOf(p) + Payload(p).value)] else []
  }

  lemma MultipointRead(p: Packet, code: Byte, more: seq<Byte>)
    requires p.PointToMultipoint? && Carried(p) && p.sals != []
    ensures Payload(p).Ok?
    ensures var bytes := [Flags(DAT_PM, false, p.meta.priorityClass)] + Payload(p).value + more;
            var f := CProtocol.CommandFields(code, bytes);
            CommandRead(p, if f.kind == CProtocol.Unknown then None else Some(f)) && f.confCode == code
  {
    FlagsFields(DAT_PM, false, p.meta.priorityClass);
    MessageBytes(p.application, p.sals);
    var flags, body := Flags(DAT_PM, false, p.meta.priorityClass), Sals.EncodeAll(p.sals).value;
    MoreBytes(p.sals[0], body, more);
    MultipointFields(code, flags, p.application, body + more, p.sals[0]);
    assert p.sals[0] in p.sals;
    assert [flags] + ([p.application, 0] + body) + more == [flags, p.application, 0] + (body + more);
  }

  lemma PacketFields(p: Packet, code: Byte)
    requires p.Addressed() && Carried(p) && p.meta.source == None && Payload(p).Ok?
    ensures var bytes := HeaderOf(p) + Payload(p).value + Sum(p);
            var f := CProtocol.CommandFields(code, bytes);
            && CommandRead(p, if f.kind == CProtocol.Unknown then None else Some(f))
            && f.confCode == code
  {
    var dat := if p.DeviceManagement? then DAT_PPM else if p.PointToPoint? then DAT_PP else DAT_PM;
    var flags := Flags(dat, p.DeviceManagement?, p.meta.priorityClass);
    assert HeaderOf(p) == [flags];
    if p.PointToMultipoint? && p.sals != [] {
      MultipointRead(p, code, Sum(p));
    } else if p.PointToMultipoint? {
      EmptyFields(p, code);
      assert [flags] + Payload(p).value + Sum(p) == [flags, p.application, 0] + Sum(p);
    } else {
      FlagsFields(dat, p.DeviceManagement?, p.meta.priorityClass);
      OtherPacketFields(p, code, [flags] + Payload(p).value + Sum(p));
    }
  }

  /** A packet without messages has at most its checksum where the command would be, which never is a command for a
      light. */
  lemma EmptyFields(p: Packet, code: Byte)
    requires p.PointToMultipoint? && Carried(p) && p.sals == [] && p.meta.source == None
    ensures Payload(p) == Ok([p.application, 0])
    ensures var bytes := [Flags(DAT_PM, false, p.meta.priorityClass), p.application, 0] + Sum(p);
            var f := CProtocol.CommandFields(code, bytes);
            CommandRead(p, if f.kind == CProtocol.Unknown then None else Some(f)) && f.confCode == code
  {
    var flags := Flags(DAT_PM, false, p.meta.priorityClass);
    FlagsFields(DAT_PM, false, p.meta.priorityClass);
    var front := [flags, p.application, 0];
    assert HeaderOf(p) == [flags];
    assert Sals.EncodeAll([]) == Ok([]) && [p.application, 0] + [] == [p.application, 0];
    assert Payload(p) == Ok([p.application, 0]);
    assert [flags] + [p.application, 0] == front;
    if p.meta.checksum {
      var sum := Checksum.Compute(front);
      assert Sum(p) == [sum] && front + [sum] == [flags, p.application, 0, sum];
      if p.application == 0x38 {
        NoLightInSum(p.meta.priorityClass);
      }
    } else {
      assert front + Sum(p) == front;
    }
  }

  lemma NoLightInSum(priorityClass: Byte)
    requires priorityClass < 4
    ensures var sum := Checksum.Compute([Flags(DAT_PM, false, priorityClass), 0x38, 0]);
            sum !in {0x79, 0x01, 0x09} && !CProtocol.IsRampRate(sum)
  {
    SumOfThree(Flags(DAT_PM, false, priorityClass));
    var sum := Checksum.Complement(5 + 64 * priorityClass + 0x38);
    assert sum in {0x03, 0x43, 0x83, 0xC3} by {
      assert priorityClass in {0, 1, 2, 3};
    }
    Sals.RateCodes(sum);
  }

  lemma SumOfThree(flags: Byte)
    ensures Checksum.Compute([flags, 0x38, 0]) == Checksum.Complement(flags + 0x38)
  {
    var one, two, three: seq<Byte> := [0], [0x38, 0], [flags, 0x38, 0];
    assert one[1..] == [] && two[1..] == one && three[1..] == two;
    assert Checksum.Sum(one) == 0 + Checksum.Sum([]);
    assert Checksum.Sum(two) == 0x38 + Checksum.Sum(one);
    assert Checksum.Sum(three) == flags + Checksum.Sum(two);
  }

  lemma OtherPacketFields(p: Packet, code: Byte, bytes: seq<Byte>)
    requires p.Addressed() && |bytes| >= 3 && !p.PointToMultipoint?
    requires bytes[0] % 8 == if p.DeviceManagement? then 3 else 6
    requires p.PointToPoint? ==> bytes[1] == p.unitAddress
    ensures var f := CProtocol.CommandFields(code, bytes);
            CommandRead(p, if f.kind == CProtocol.Unknown then None else Some(f)) && f.confCode == code
  {}

  /** The firmware reads every packet a client sends behind a backslash, of at most 256 bytes, as what it is: the first
      light message of the default application, a status request with its kind, application and block, a clock message,
      a point-to-point frame; messages of other applications and device management it refuses there. A status request
      or clock message that is empty but for its checksum it takes for one of all zeros. */
  lemma CommandsReadAlike(p: Packet)
    requires p.Addressed() && Carried(p) && ToPciMeta(p.meta)
    ensures EncodePacket(p).Ok?
    ensures |EncodePacket(p).value| <= 512 ==>
              var r := CProtocol.Command(Wrapped(EncodePacket(p).value, Some(BACKSLASH), p.meta.confirmation));
              && CommandRead(p, r)
              && (r.Some? ==> r.value.confCode == CodeOf(p.meta.confirmation))
  {
    PayloadRoundTrip(p);
    Encodes(p);
    var text := EncodePacket(p).value;
    var bytes := HeaderOf(p) + Payload(p).value + Sum(p);
    assert Finish(HeaderOf(p) + Payload(p).value, p.meta) == bytes;
    Hex.DecodeInvertsEncode(bytes);
    if |text| <= 512 {
      EscapedLine(text, p.meta.confirmation, bytes);
      PacketFields(p, CodeOf(p.meta.confirmation));
    }
  }

  lemma ManagementLine(line: seq<Byte>, at: nat, parameter: Byte, value: Byte)
    requires |line| >= at + 8 && (if line[0] == AT then at == 1 else at == 0 && Hex.IsDigit(line[0]))
    requires CProtocol.HexValue(line[at + 2..at + 8], 3) == Some([parameter, 0, value])
    ensures var r := CProtocol.Command(line);
            && (r.Some? <==> line[at] == 0x41 && line[at + 1] == 0x33)
            && (r.Some? ==> r.value.kind == CProtocol.DeviceMgmt
                            && r.value.dmParameter == parameter && r.value.dmValue == value)
  {}

  /** Device management in basic mode, with `@` before it or not, is read exactly in the priority class whose header
      is `A3`, with its parameter and value. */
  lemma ManagementReadsAlikeIff(p: Packet, prefix: Option<Byte>)
    requires p.DeviceManagement? && Carried(p) && ToPciMeta(p.meta) && (prefix == None || prefix == Some(AT))
    ensures EncodePacket(p).Ok?
    ensures var r := CProtocol.Command(Wrapped(EncodePacket(p).value, prefix, p.meta.confirmation));
            && (r.Some? <==> p.meta.priorityClass == 2)
            && (r.Some? ==> r.value.kind == CProtocol.DeviceMgmt
                            && r.value.dmParameter == p.parameter && r.value.dmValue == p.value)
  {
    Encodes(p);
    ManagementText(p);
    var text := EncodePacket(p).value;
    var at := if prefix.Some? then 1 else 0;
    FrontOfLine(text, prefix, p.meta.confirmation, at);
    CProtocol.HexDecodersAgree(text[2..8], 3);
    ManagementLine(Wrapped(text, prefix, p.meta.confirmation), at, p.parameter, p.value);
  }

  lemma FrontOfLine(text: seq<Byte>, prefix: Option<Byte>, confirmation: Option<Byte>, at: nat)
    requires |text| >= 8 && at == (if prefix.Some? then 1 else 0) && (prefix == None || prefix == Some(AT))
    ensures var line := Wrapped(text, prefix, confirmation);
            && |line| >= at + 8 && (at == 1 ==> line[0] == AT)
            && line[at] == text[0] && line[at + 1] == text[1] && line[at + 2..at + 8] == text[2..8]
  {}

  lemma ManagementText(p: Packet)
    requires p.DeviceManagement? && Carried(p) && p.meta.source == None
    ensures EncodePacket(p).Ok? && |EncodePacket(p).value| >= 8
    ensures var text := EncodePacket(p).value;
            && (text[0] == 0x41 && text[1] == 0x33 <==> p.meta.priorityClass == 2)
            && Hex.IsDigit(text[0]) && Hex.Decode(text[2..8]) == Ok([p.parameter, 0, p.value])
  {
    var flags := Flags(DAT_PPM, true, p.meta.priorityClass);
    var bytes := Finish([flags, p.parameter, 0, p.value], p.meta);
    assert HeaderOf(p) + Payload(p).value == [flags, p.parameter, 0, p.value];
    var text := Hex.Encode(bytes);
    assert bytes[1..4] == [p.parameter, 0, p.value];
    DigitsOfSlice(bytes);
    Hex.DecodeInvertsEncode(bytes[1..4]);
  }

  lemma DigitsOfSlice(bytes: seq<Byte>)
    requires |bytes| >= 4
    ensures Hex.Encode(bytes)[2..8] == Hex.Encode(bytes[1..4])
    ensures Hex.Encode(bytes)[0] == Hex.Digit(bytes[0] / 16) && Hex.Encode(bytes)[1] == Hex.Digit(bytes[0] % 16)
  {
    assert bytes[1..] == bytes[1..4] + bytes[4..];
    DigitsOfPart(bytes, bytes[1..4], bytes[4..]);
  }

  lemma DigitsOfPart(bytes: seq<Byte>, middle: seq<Byte>, rest: seq<Byte>)
    requires bytes != [] && bytes[1..] == middle + rest && |middle| == 3
    ensures Hex.Encode(bytes)[2..8] == Hex.Encode(middle)
    ensures Hex.Encode(bytes)[0] == Hex.Digit(bytes[0] / 16) && Hex.Encode(bytes)[1] == Hex.Digit(bytes[0] % 16)
  {
    Hex.EncodeConcat(middle, rest);
    FrontOfEncoding(bytes, Hex.Encode(middle), Hex.Encode(rest));
  }

  lemma FrontOfEncoding(bytes: seq<Byte>, middle: seq<Byte>, rest: seq<Byte>)
    requires bytes != [] && |middle| == 6 && Hex.Encode(bytes[1..]) == middle + rest
    ensures Hex.Encode(bytes)[2..8] == middle
    ensures Hex.Encode(bytes)[0] == Hex.Digit(bytes[0] / 16) && Hex.Encode(bytes)[1] == Hex.Digit(bytes[0] % 16)
  {
    assert Hex.Encode(bytes) == [Hex.Digit(bytes[0] / 16), Hex.Digit(bytes[0] % 16)] + (middle + rest);
  }

  // ---- What the bridge does with it -----------------------------------------------------

  /** What a packet does to the levels of groups. */
  function Obeyed(levels: seq<Byte>, p: Packet): seq<Byte>
    requires |levels| == Bridge.MAX_GROUPS
  {
    if p.PointToMultipoint? && p.application == 0x38 && p.sals != [] then
      match p.sals[0]
      case LightingOn(_, group) => levels[group := 255]
      case LightingOff(_, group) => levels[group := 0]
      case LightingRamp(_, group, _, level) => levels[group := level]
      case _ => levels
    else levels
  }

  lemma ReadIsObeyed(s: Bridge.State, p: Packet, r: Option<CProtocol.Fields>)
    requires |s.levels| == Bridge.MAX_GROUPS && p.Addressed() && Carried(p) && CommandRead(p, r)
    ensures var t := Bridge.After(s, r);
            && t.smartMode == s.smartMode && t.confirmationIndex == s.confirmationIndex
            && t.levels == Obeyed(s.levels, p)
  {
    if p.PointToMultipoint? && p.sals != [] {
      assert p.sals[0] in p.sals;
    }
  }

  /** The bridge obeys the first light message of the default application in a client's packet behind a backslash, and
      no other packet there. */
  lemma BridgeObeys(s: Bridge.State, p: Packet)
    requires |s.levels| == Bridge.MAX_GROUPS && p.Addressed() && Carried(p) && ToPciMeta(p.meta)
    requires EncodePacket(p).Ok? && |EncodePacket(p).value| <= 512
    ensures var line := Wrapped(EncodePacket(p).value, Some(BACKSLASH), p.meta.confirmation);
            var t := Bridge.After(s, CProtocol.Command(line));
            && t.smartMode == s.smartMode && t.confirmationIndex == s.confirmationIndex
            && t.levels == Obeyed(s.levels, p)
  {
    CommandsReadAlike(p);
    ReadIsObeyed(s, p, CProtocol.Command(Wrapped(EncodePacket(p).value, Some(BACKSLASH), p.meta.confirmation)));
  }

  /** Device management of interface options turns smart mode on exactly if its bit 4 is set. */
  lemma ManagementSetsSmartMode(s: Bridge.State, p: Packet, prefix: Option<Byte>)
    requires |s.levels| == Bridge.MAX_GROUPS && p.DeviceManagement? && Carried(p) && ToPciMeta(p.meta)
    requires p.meta.priorityClass == 2 && (prefix == None || prefix == Some(AT))
    ensures EncodePacket(p).Ok?
    ensures var r := Bridge.After(s, CProtocol.Command(Wrapped(EncodePacket(p).value, prefix, p.meta.confirmation)));
            && (r.smartMode <==> s.smartMode || (p.parameter == 0x30 && p.value / 16 % 2 == 1))
            && r.levels == s.levels
  {
    ManagementReadsAlikeIff(p, prefix);
  }

  /** Its confirmations are successes to the client, and the end of their line is nothing to it. */
  lemma ConfirmationIsUnderstood(code: Byte, tail: seq<Byte>, checksum: bool, strict: bool)
    requires code in CONFIRMATION_CODES
    ensures DecodePacket(Bridge.Confirmation(code) + tail, checksum, strict, true)
         == Decoded(Some(Confirmation(code, true)), 2)
    ensures DecodePacket(Bridge.Confirmation(code)[2..] + tail, checksum, strict, true) == Decoded(None, 2)
  {
    ConfirmationCodesAreLetters();
    assert Bridge.Confirmation(code) + tail == [code, 0x2E] + ([0x0D, 0x0A] + tail);
    assert Bridge.Confirmation(code)[2..] == [0x0D, 0x0A];
    TokensFromPci(code, 0x2E, [0x0D, 0x0A] + tail, checksum, strict);
    TokensFromPci(code, 0x2E, tail, checksum, strict);
  }

  // ---- Replies from the PCI -------------------------------------------------------------

  /** The parser takes a reply for levels exactly by its length and application: an extended status of a lighting
      application with an even number of report bytes. It does not look at the coding, so a binary report of such a
      length is taken for levels too. */
  lemma TakenForLevelsIff(raw: seq<Byte>)
    requires |raw| >= 5 && raw[0] % 8 == 6
    ensures var f := CProtocol.ResponseFields(raw);
            && f.source == raw[1] && f.kind in {CProtocol.StatusRequest, CProtocol.PpOther}
            && (f.kind == CProtocol.StatusRequest <==>
                  var length := raw[4] % 32;
                  && raw[4] / 32 == 7 && 5 <= length && length % 2 == 1 && 5 + length <= |raw|
                  && Sals.IsLightingApp(raw[6]))
  {}

  /** Such a report: what the Rust client reads as the states of groups, the firmware reads as levels. */
  lemma BinaryReportIsMisread(raw: seq<Byte>)
    requires |raw| >= 5 && raw[0] % 8 == 6 && Cals.DecodeOne(raw[4..]).Ok?
    requires var cal := Cals.DecodeOne(raw[4..]).value.0;
             cal.ExtendedStatus? && Sals.IsLightingApp(cal.childApplication)
             && cal.report.Binary? && cal.report.states != [] && |cal.report.states| % 8 == 0
    ensures CProtocol.ResponseFields(raw).kind == CProtocol.StatusRequest
  {
    var cal := Cals.DecodeOne(raw[4..]).value.0;
    var payload := raw[4..][4..raw[4] % 32 + 1];
    assert cal.report.states == StatusReports.Unpack(payload);
    TakenForLevelsIff(raw);
  }

  /** A command of the firmware as the crate's message. */
  function MessageOf(app: Byte, light: Firmware.Light): Sals.Sal
    requires Firmware.Rated(light)
  {
    match light
    case On(group) => Sals.LightingOn(app, group)
    case Off(group) => Sals.LightingOff(app, group)
    case Ramp(group, level, rate) =>
      Firmware.RatedIsRampRate(light);
      Sals.LightingRamp(app, group, Sals.RateToDuration(rate).value, level)
  }

  lemma MessageIsEncoded(app: Byte, light: Firmware.Light)
    requires Firmware.Rated(light)
    ensures Sals.EncodeAll([MessageOf(app, light)]) == Ok(Firmware.Packet(app, light)[3..])
    ensures Sals.IsLightingApp(app) ==> Sals.Representable(MessageOf(app, light))
  {
    if light.Ramp? {
      Firmware.RatedIsRampRate(light);
      Sals.RateRoundTrip(light.rate);
    }
    var sal, bytes := MessageOf(app, light), Firmware.Packet(app, light)[3..];
    assert Sals.Encode(sal) == Ok(bytes);
    OneMessage(sal, bytes);
  }

  lemma OneMessage(sal: Sals.Sal, bytes: seq<Byte>)
    requires Sals.Encode(sal) == Ok(bytes)
    ensures Sals.EncodeAll([sal]) == Ok(bytes)
  {
    assert [sal][1..] == [] && bytes + [] == bytes;
  }

  lemma MultipointText(p: Packet, body: seq<Byte>)
    requires p.PointToMultipoint? && p.meta.checksum && p.meta.source == None && p.meta.priorityClass == 0
    requires Sals.EncodeAll(p.sals) == Ok(body)
    ensures EncodePacket(p) == Ok(Hex.Encode(Checksum.Append([0x05, p.application, 0] + body)))
  {
    assert HeaderOf(p) == [0x05];
    assert [0x05] + ([p.application, 0] + body) == [0x05, p.application, 0] + body;
    assert Encode(p) == Ok(Checksum.Append([0x05, p.application, 0] + body));
  }

  lemma WrappedAlike(text: seq<Byte>, code: Byte)
    ensures Wrapped(text, Some(BACKSLASH), Some(code)) == [BACKSLASH] + text + [code]
  {
    Regroup([BACKSLASH], text, [code]);
  }

  /** The line the firmware sends for a light is the frame of the Rust client for that message; so a server reads just
      that message from it, whatever follows. */
  lemma FirmwareSpeaksAsTheClient(app: Byte, light: Firmware.Light, code: Byte, strict: bool, tail: seq<Byte>)
    requires Sals.IsLightingApp(app) && Firmware.Rated(light) && code in CONFIRMATION_CODES
    ensures var p := PointToMultipoint(Meta(true, 0, None, Some(code)), app, [MessageOf(app, light)]);
            var line := Firmware.Line(Firmware.Packet(app, light), code) + [CR];
            ClientFrame(p, Some(BACKSLASH)) == Ok(line)
            && DecodePacket(line + tail, true, strict, false) == Decoded(Some(p), |line|)
  {
    var p := PointToMultipoint(Meta(true, 0, None, Some(code)), app, [MessageOf(app, light)]);
    var packet := Firmware.Packet(app, light);
    MessageIsEncoded(app, light);
    assert packet == [0x05, app, 0] + packet[3..];
    MultipointText(p, packet[3..]);
    WrappedAlike(Hex.Encode(Checksum.Append(packet)), code);
    assert Carried(p);
    ToPciRoundTrip(p, Some(BACKSLASH), true, strict, tail);
  }
}
