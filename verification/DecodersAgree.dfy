/** The Rust client and the C firmware read the same level reports out of the same frames. */
module DecodersAgree {
  import opened Bytes
  import opened Cals
  import opened Decoder
  import opened Packets
  import opened RoundTrip
  import opened StatusReports
  import opened Wrappers
  import CProtocol
  import Checksum
  import Hex
  import Sals

  /** A packet whose first CAL reports at least one level of a lighting application. */
  predicate ReportsLevels(p: Packet) {
    p.PointToPoint? && !p.bridged && p.cals != [] &&
    match p.cals[0]
    case ExtendedStatus(_, app, _, Level(levels)) => Sals.IsLightingApp(app) && levels != []
    case _ => false
  }

  /** The same report as the firmware records it: 0 stands for a missing level. */
  predicate SameReport(p: Packet, f: CProtocol.Fields)
    requires ReportsLevels(p)
  {
    && f.kind == CProtocol.StatusRequest
    && f.source == (if p.meta.source.Some? then p.meta.source.value else 0)
    && f.childApp == p.cals[0].childApplication
    && f.blockStart == p.cals[0].blockStart
    && |f.levels| == |p.cals[0].report.levels|
    && forall i | 0 <= i < |f.levels| ::
         f.levels[i] == match p.cals[0].report.levels[i] case Some(v) => v case None => 0
  }

  /** What the Rust client makes of a report's text. */
  lemma ReportOfText(text: seq<Byte>)
    requires var d := DecodeText(Envelope(text, true, false, None), true, true, |text| + 2);
             d.packet.Some? && ReportsLevels(d.packet.value)
    ensures RawBytes(text, true, true).Ok?
    ensures Layout(RawBytes(text, true, true).value,
                   DecodeText(Envelope(text, true, false, None), true, true, |text| + 2).packet.value)
  {
    ReportLayout(RawBytes(text, true, true).value, true, |text| + 2);
  }

  /** What the firmware makes of it. */
  lemma FirmwareReads(text: seq<Byte>, raw: seq<Byte>, p: Packet)
    requires 2 <= |text| <= 512 && Hex.AllDigits(text) && RawBytes(text, true, true) == Ok(raw)
    requires ReportsLevels(p) && Layout(raw, p)
    ensures CProtocol.PciResponse(text).Some? && SameReport(p, CProtocol.PciResponse(text).value)
  {
    CProtocol.HexDecodersAgree(text, CProtocol.MAX_PACKET_SIZE);
    assert text[0] in text;
    SameFields(raw, p);
    ResponseIs(text, Hex.Decode(text).value, raw);
  }

  /** Whatever frame of at most 512 digits the Rust client takes for a level report, the firmware reads alike. */
  lemma ReportsReadAlike(text: seq<Byte>, tail: seq<Byte>)
    requires 2 <= |text| <= 512 && Hex.AllDigits(text)
    requires var d := DecodePacket(text + [CR, LF] + tail, true, true, true);
             d.packet.Some? && ReportsLevels(d.packet.value)
    ensures CProtocol.PciResponse(text).Some?
    ensures SameReport(DecodePacket(text + [CR, LF] + tail, true, true, true).packet.value,
                       CProtocol.PciResponse(text).value)
  {
    LineFromPci(text, true, true, tail);
    ReportOfText(text);
    FirmwareReads(text, RawBytes(text, true, true).value,
                  DecodePacket(text + [CR, LF] + tail, true, true, true).packet.value);
  }

  /** Where the decoder found the report, and what it made of it. */
  predicate Layout(raw: seq<Byte>, p: Packet)
    requires ReportsLevels(p)
  {
    && |raw| >= 10 && raw[0] % 8 == DAT_PP && raw[4] / 32 == 7
    && raw[4] % 32 % 2 == 1 && 5 <= raw[4] % 32 && 5 + raw[4] % 32 <= |raw|
    && p.meta.source == (if raw[1] != 0 then Some(raw[1]) else None)
    && p.cals[0].childApplication == raw[6] && p.cals[0].blockStart == raw[7]
    && p.cals[0].report.levels == DecodePairs(raw[8..5 + raw[4] % 32])
  }

  lemma ReportLayout(raw: seq<Byte>, checksum: bool, consumed: nat)
    requires raw != []
    requires DecodeBody(raw, checksum, true, false, None, consumed).Ok?
    requires ReportsLevels(DecodeBody(raw, checksum, true, false, None, consumed).value.0)
    ensures Layout(raw, DecodeBody(raw, checksum, true, false, None, consumed).value.0)
  {
    var p := DecodeBody(raw, checksum, true, false, None, consumed).value.0;
    if IsDirectCal(raw[0], true) {
      // a report's header has the bit that rules a direct CAL out
      FirstCal(raw);
      StatusCalLayout(raw);
      assert false;
    } else {
      assert DecodePp(raw[2..], p.meta) == Ok(p);
      assert raw[2..][2..] == raw[4..];
      FirstCal(raw[4..]);
      StatusCalLayout(raw[4..]);
      assert raw[4..][4..raw[4] % 32 + 1] == raw[8..5 + raw[4] % 32];
    }
  }

  lemma FirstCal(data: seq<Byte>)
    requires Cals.DecodeAll(data).Ok? && Cals.DecodeAll(data).value != []
    ensures Cals.DecodeOne(data).Ok? && Cals.DecodeAll(data).value[0] == Cals.DecodeOne(data).value.0
  {}

  predicate IsLevelReport(cal: Cal) {
    cal.ExtendedStatus? && cal.report.Level? && cal.report.levels != []
  }

  /** Where a level report keeps its parts. */
  lemma StatusCalLayout(data: seq<Byte>)
    requires Cals.DecodeOne(data).Ok? && IsLevelReport(Cals.DecodeOne(data).value.0)
    ensures |data| >= 6 && data[0] / 32 == 7 && data[0] % 32 % 2 == 1 && 5 <= data[0] % 32 < |data|
    ensures var cal := Cals.DecodeOne(data).value.0;
            cal.childApplication == data[2] && cal.blockStart == data[3] &&
            cal.report.levels == DecodePairs(data[4..data[0] % 32 + 1])
  {}

  lemma SameFields(raw: seq<Byte>, p: Packet)
    requires ReportsLevels(p) && Layout(raw, p)
    ensures SameReport(p, CProtocol.ResponseFields(raw))
  {
    assert CProtocol.CarriesLevels(raw);
  }

  /** A frame as the Rust encoder makes it, carrying nothing but a level report. */
  predicate IsReportFrame(p: Packet) {
    ReportsLevels(p) && |p.cals| == 1 && Cals.WellFormed(p.cals[0]) && p.hops == [] &&
    p.meta.priorityClass < 4 && FromPciMeta(p.meta)
  }

  /** Every checksummed report frame of the Rust encoder is read alike by both decoders. */
  lemma EncodedReportsReadAlike(p: Packet)
    requires IsReportFrame(p) && p.meta.checksum
    ensures EncodePacket(p).Ok?
    ensures DecodePacket(EncodePacket(p).value + [CR, LF], true, true, true).packet == Some(p)
    ensures CProtocol.PciResponse(EncodePacket(p).value).Some?
    ensures SameReport(p, CProtocol.PciResponse(EncodePacket(p).value).value)
  {
    FromPciRoundTrip(p, true, []);
    var text := EncodePacket(p).value;
    Encodes(p);
    ReportFrameLength(p);
    assert text + [CR, LF] == text + [CR, LF] + [];
    ReportsReadAlike(text, []);
  }

  /** The bytes of a report frame without its checksum. */
  function FrameBytes(p: Packet): seq<Byte>
    requires IsReportFrame(p)
  {
    [Flags(DAT_PP, false, p.meta.priorityClass), p.meta.source.value, p.unitAddress, 0] + Cals.Encode(p.cals[0])
  }

  lemma ReportFrameLength(p: Packet)
    requires IsReportFrame(p)
    ensures Payload(p).Ok? && HeaderOf(p) + Payload(p).value == FrameBytes(p)
    ensures EncodePacket(p) == Ok(Hex.Encode(Finish(FrameBytes(p), p.meta)))
    ensures 10 <= |FrameBytes(p)| <= 36 && 5 + FrameBytes(p)[4] % 32 == |FrameBytes(p)|
  {
    ReportCalLength(p.cals[0]);
    OneCal(p.cals);
    assert HeaderOf(p) + ([p.unitAddress, 0] + Cals.Encode(p.cals[0])) == FrameBytes(p);
  }

  lemma OneCal(cals: seq<Cal>)
    requires |cals| == 1
    ensures Cals.EncodeAll(cals) == Cals.Encode(cals[0])
  {
    assert cals[1..] == [];
    assert Cals.EncodeAll(cals) == Cals.Encode(cals[0]) + [];
  }

  lemma ReportCalLength(cal: Cal)
    requires IsLevelReport(cal) && Cals.WellFormed(cal)
    ensures 6 <= |Cals.Encode(cal)| <= 32 && Cals.Encode(cal)[0] % 32 + 1 == |Cals.Encode(cal)|
  {
    ReportRoundTrip(cal.report);
  }

  lemma ReportFrameLayout(p: Packet)
    requires IsReportFrame(p)
    ensures Layout(FrameBytes(p), p)
  {
    ReportFrameLength(p);
    BodyRoundTrip(p, true, false, 0);
    ReportLayout(FrameBytes(p), p.meta.checksum, 0);
  }

  /** Without a checksum the firmware may take the last byte for one: it reads the report
      exactly when the bytes of the frame do not happen to add up to 0 modulo 256. */
  lemma UncheckedReportsReadAlikeIff(p: Packet)
    requires IsReportFrame(p) && !p.meta.checksum
    ensures EncodePacket(p) == Ok(Hex.Encode(FrameBytes(p)))
    ensures ReadAlike(p, Hex.Encode(FrameBytes(p))) <==> Checksum.Sum(FrameBytes(p)) % 256 != 0
  {
    ReportFrameLength(p);
    ReportFrameLayout(p);
    LayoutDecides(FrameBytes(p), p);
  }

  lemma LayoutDecides(raw: seq<Byte>, p: Packet)
    requires ReportsLevels(p) && Layout(raw, p) && |raw| <= 36 && 5 + raw[4] % 32 == |raw|
    ensures ReadAlike(p, Hex.Encode(raw)) <==> Checksum.Sum(raw) % 256 != 0
  {
    var text := Hex.Encode(raw);
    assert text[0] in text;
    EncodedIsRead(raw);
    Checksum.AcceptedIffSumIsZero(raw);
    if Checksum.Validate(raw) {
      ShortenedIsMisread(raw);
      ResponseIs(text, raw, raw[..|raw| - 1]);
    } else {
      SameFields(raw, p);
      ResponseIs(text, raw, raw);
    }
  }

  lemma EncodedIsRead(raw: seq<Byte>)
    requires |raw| <= CProtocol.MAX_PACKET_SIZE
    ensures CProtocol.HexValue(Hex.Encode(raw), CProtocol.MAX_PACKET_SIZE) == Some(raw)
  {
    Hex.DecodeInvertsEncode(raw);
    CProtocol.HexDecodersAgree(Hex.Encode(raw), CProtocol.MAX_PACKET_SIZE);
  }

  lemma ResponseIs(text: seq<Byte>, raw: seq<Byte>, pkt: seq<Byte>)
    requires |text| >= 4 && Hex.IsDigit(text[0]) && |raw| >= 4
    requires CProtocol.HexValue(text, CProtocol.MAX_PACKET_SIZE) == Some(raw)
    requires pkt == if Checksum.Validate(raw) then raw[..|raw| - 1] else raw
    requires CProtocol.ResponseFields(pkt).kind != CProtocol.Unknown
    ensures CProtocol.PciResponse(text) == Some(CProtocol.ResponseFields(pkt))
  {
    CProtocol.ResponseBytesFrom(text, raw);
    CProtocol.ResponseFrom(text, pkt);
  }

  predicate ReadAlike(p: Packet, text: seq<Byte>)
    requires ReportsLevels(p)
  {
    CProtocol.PciResponse(text).Some? && SameReport(p, CProtocol.PciResponse(text).value)
  }

  /** With its last byte gone the CAL no longer fits, and the frame is some other point-to-point frame. */
  lemma ShortenedIsMisread(raw: seq<Byte>)
    requires |raw| >= 10 && raw[0] % 8 == DAT_PP && 5 + raw[4] % 32 == |raw|
    ensures CProtocol.ResponseFields(raw[..|raw| - 1]).kind == CProtocol.PpOther
  {
    assert raw[..|raw| - 1][4] == raw[4] && raw[..|raw| - 1][0] == raw[0];
  }

  lemma RestOfSum(sum: int, was: Byte) returns (unit: Byte)
    ensures (sum - was + unit) % 256 == 0
  {
    unit := (256 - (sum - was) % 256) % 256;
  }

  lemma Balance(raw: seq<Byte>) returns (unit: Byte)
    requires |raw| >= 4
    ensures Checksum.Sum(raw[2 := unit]) % 256 == 0
  {
    unit := RestOfSum(Checksum.Sum(raw), raw[2]);
    Checksum.SumUpdate(raw, 2, unit);
  }

  /** Such frames exist: every report has a unit address for which the firmware misses it. */
  lemma SomeUnitIsMisread(p: Packet) returns (unit: Byte)
    requires IsReportFrame(p) && !p.meta.checksum
    ensures var q := p.(unitAddress := unit);
            IsReportFrame(q) && EncodePacket(q).Ok? && !ReadAlike(q, EncodePacket(q).value)
  {
    unit := Balance(FrameBytes(p));
    UnitReplaced(p, unit);
    UncheckedReportsReadAlikeIff(p.(unitAddress := unit));
  }

  lemma UnitReplaced(p: Packet, unit: Byte)
    requires IsReportFrame(p) && !p.meta.checksum
    ensures var q := p.(unitAddress := unit);
            IsReportFrame(q) && !q.meta.checksum && FrameBytes(q) == FrameBytes(p)[2 := unit]
  {
    assert FrameBytes(p.(unitAddress := unit)) == FrameBytes(p)[2 := unit];
  }
}
