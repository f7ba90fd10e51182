/** Frames survive the wire: what the encoder writes, the decoder reads back, whatever follows it. */
module RoundTrip {
  import opened Bytes
  import opened Cals
  import opened Decoder
  import opened Packets
  import opened Wrappers
  import Checksum
  import Hex
  import Sals

  /** The fields the wire format has room for. */
  predicate Carried(p: Packet)
    requires p.Addressed()
  {
    p.meta.priorityClass < 4 &&
    match p
    case DeviceManagement(_, _, _) => true
    case PointToMultipoint(_, app, sals) =>
      Sals.DecodeAll(app, []).Ok? && forall s | s in sals :: Sals.Representable(s) && Sals.ApplicationOf(s) == app
    case PointToPoint(_, _, bridged, hops, cals) =>
      !bridged && hops == [] && forall c | c in cals :: Cals.WellFormed(c)
  }

  predicate FromPciMeta(meta: Meta) {
    meta.source.Some? && meta.source.value != 0 && meta.confirmation == None
  }

  predicate ToPciMeta(meta: Meta) {
    meta.source == None && (meta.confirmation.Some? ==> meta.confirmation.value in CONFIRMATION_CODES)
  }

  lemma PayloadRoundTrip(p: Packet)
    requires p.Addressed() && Carried(p)
    ensures Payload(p).Ok?
    ensures p.PointToPoint? ==> DecodePp(Payload(p).value, p.meta) == Ok(p)
    ensures p.PointToMultipoint? ==> DecodePm(Payload(p).value, p.meta) == Ok(p)
  {
    match p {
      case DeviceManagement(_, _, _) =>
      case PointToMultipoint(_, app, sals) =>
        Sals.StreamRoundTrip(app, sals);
        assert Payload(p).value[2..] == Sals.EncodeAll(sals).value;
      case PointToPoint(_, _, _, _, cals) =>
        Cals.StreamRoundTrip(cals);
        assert Payload(p).value[2..] == Cals.EncodeAll(cals);
    }
  }

  lemma Encodes(p: Packet)
    requires p.Addressed() && Carried(p)
    ensures EncodePacket(p).Ok? && |EncodePacket(p).value| >= 2 && Hex.AllDigits(EncodePacket(p).value)
  {
    PayloadRoundTrip(p);
  }

  lemma FlagsFields(dat: Byte, dp: bool, priorityClass: Byte)
    requires dat < 8 && priorityClass < 4
    ensures var f := Flags(dat, dp, priorityClass);
            f % 8 == dat && (f / 32 % 2 == 1) == dp && f / 64 == priorityClass
  {
    var f := Flags(dat, dp, priorityClass);
    assert f / 32 == 2 * priorityClass + if dp then 1 else 0;
  }

  lemma BodyRoundTrip(p: Packet, fromPci: bool, bareCal: bool, consumed: nat)
    requires p.Addressed() && Carried(p)
    requires if fromPci then FromPciMeta(p.meta) else ToPciMeta(p.meta)
    requires bareCal ==> p.DeviceManagement? && !fromPci
    ensures Payload(p).Ok?
    ensures DecodeBody(HeaderOf(p) + Payload(p).value, p.meta.checksum, fromPci, bareCal, p.meta.confirmation, consumed)
         == Ok((p, consumed))
  {
    PayloadRoundTrip(p);
    var dat := if p.DeviceManagement? then DAT_PPM else if p.PointToPoint? then DAT_PP else DAT_PM;
    FlagsFields(dat, p.DeviceManagement?, p.meta.priorityClass);
    var raw := HeaderOf(p) + Payload(p).value;
    assert raw[if fromPci then 2 else 1..] == Payload(p).value;
    assert raw[0] == Flags(dat, p.DeviceManagement?, p.meta.priorityClass);
  }

  lemma RawBytesRoundTrip(raw: seq<Byte>, meta: Meta, strict: bool)
    requires raw != []
    ensures RawBytes(Hex.Encode(Finish(raw, meta)), meta.checksum, strict) == Ok(raw)
  {
    Hex.DecodeInvertsEncode(Finish(raw, meta));
    if meta.checksum {
      Checksum.AppendedIsAccepted(raw, Checksum.Compute(raw));
      assert Checksum.Append(raw)[..|raw|] == raw;
    }
  }

  lemma TextRoundTrip(p: Packet, fromPci: bool, bareCal: bool, strict: bool, consumed: nat)
    requires p.Addressed() && Carried(p)
    requires if fromPci then FromPciMeta(p.meta) else ToPciMeta(p.meta)
    requires bareCal ==> p.DeviceManagement? && !fromPci
    ensures EncodePacket(p).Ok?
    ensures DecodeText(Envelope(EncodePacket(p).value, p.meta.checksum, bareCal, p.meta.confirmation),
                       strict, fromPci, consumed)
         == Decoded(Some(p), consumed)
  {
    BodyRoundTrip(p, fromPci, bareCal, consumed);
    RawBytesRoundTrip(HeaderOf(p) + Payload(p).value, p.meta, strict);
  }

  /** A line of digits from the PCI is a frame, whatever follows its terminator. */
  lemma LineFromPci(text: seq<Byte>, checksum: bool, strict: bool, tail: seq<Byte>)
    requires |text| >= 2 && Hex.AllDigits(text)
    ensures DecodePacket(text + [CR, LF] + tail, checksum, strict, true)
         == DecodeText(Envelope(text, checksum, false, None), strict, true, |text| + 2)
  {
    var data := text + [CR, LF] + tail;
    assert data[0] == text[0] && text[0] in text;
    assert CR !in text;
    FindAfter(text, [CR, LF], tail);
    ConfirmationCodesAreLetters();
    assert data[..|text|] == text;
  }

  /** From the PCI: the frame, its terminator, and any bytes after it. */
  lemma FromPciRoundTrip(p: Packet, strict: bool, tail: seq<Byte>)
    requires p.Addressed() && Carried(p) && FromPciMeta(p.meta)
    ensures EncodePacket(p).Ok?
    ensures DecodePacket(EncodePacket(p).value + [CR, LF] + tail, p.meta.checksum, strict, true)
         == Decoded(Some(p), |EncodePacket(p).value| + 2)
  {
    Encodes(p);
    var text := EncodePacket(p).value;
    TextRoundTrip(p, true, false, strict, |text| + 2);
    LineFromPci(text, p.meta.checksum, strict, tail);
  }

  /** A frame as the client sends it: prefix, digits, confirmation code, carriage return. */
  function ClientFrame(p: Packet, prefix: Option<Byte>): Result<seq<Byte>>
    requires p.Addressed()
  {
    var text :- EncodePacket(p);
    Ok(Wrapped(text, prefix, p.meta.confirmation) + [CR])
  }

  function Wrapped(text: seq<Byte>, prefix: Option<Byte>, confirmation: Option<Byte>): seq<Byte> {
    if prefix.Some? then [prefix.value] + Ended(text, confirmation) else Ended(text, confirmation)
  }

  function Ended(text: seq<Byte>, confirmation: Option<Byte>): seq<Byte> {
    if confirmation.Some? then text + [confirmation.value] else text
  }

  /** A wrapped line of digits towards the PCI is a frame, whatever follows, and unwraps to what was wrapped. */
  lemma LineToPci(text: seq<Byte>, prefix: Option<Byte>, confirmation: Option<Byte>, checksum: bool, strict: bool,
                  tail: seq<Byte>)
    requires |text| >= 2 && Hex.AllDigits(text)
    requires prefix in {None, Some(BACKSLASH), Some(AT)}
    requires confirmation.Some? ==> confirmation.value in CONFIRMATION_CODES
    ensures DecodePacket(Wrapped(text, prefix, confirmation) + [CR] + tail, checksum, strict, false)
         == DecodeText(Envelope(text, checksum && prefix != Some(AT), prefix != Some(BACKSLASH), confirmation),
                       strict, false, |Wrapped(text, prefix, confirmation)| + 1)
  {
    var body := Wrapped(text, prefix, confirmation);
    var e := Envelope(text, checksum && prefix != Some(AT), prefix != Some(BACKSLASH), confirmation);
    assert body != [] && CR !in body && QUERY !in body && (Hex.IsDigit(body[0]) || body[0] in {BACKSLASH, AT}) by {
      WrappedIsPlain(text, prefix, confirmation);
    }
    assert OpenEnvelope(body, checksum, strict) == Some(e) by {
      Unwrap(text, prefix, confirmation, checksum, strict);
    }
    LineOfBody(body, e, checksum, strict, tail);
  }

  lemma LineOfBody(body: seq<Byte>, e: Envelope, checksum: bool, strict: bool, tail: seq<Byte>)
    requires body != [] && CR !in body && QUERY !in body
    requires Hex.IsDigit(body[0]) || body[0] in {BACKSLASH, AT}
    requires OpenEnvelope(body, checksum, strict) == Some(e)
    ensures DecodePacket(body + [CR] + tail, checksum, strict, false) == DecodeText(e, strict, false, |body| + 1)
  {
    StartOfLine(body, tail);
    FrameToPci(body, tail, checksum, strict);
    FrameOpens(body, e, checksum, strict, |body| + 1);
  }

  lemma FrameOpens(body: seq<Byte>, e: Envelope, checksum: bool, strict: bool, consumed: nat)
    requires body != [] && OpenEnvelope(body, checksum, strict) == Some(e)
    ensures DecodeFrame(body, checksum, strict, false, consumed) == DecodeText(e, strict, false, consumed)
  {}

  lemma FrameToPci(body: seq<Byte>, tail: seq<Byte>, checksum: bool, strict: bool)
    requires body != [] && StartToPci(body + [CR] + tail) == Frame(|body|)
    ensures DecodePacket(body + [CR] + tail, checksum, strict, false)
         == DecodeFrame(body, checksum, strict, false, |body| + 1)
  {
    assert (body + [CR] + tail)[..|body|] == body;
  }

  lemma WrappedIsPlain(text: seq<Byte>, prefix: Option<Byte>, confirmation: Option<Byte>)
    requires text != [] && Hex.AllDigits(text)
    requires prefix in {None, Some(BACKSLASH), Some(AT)}
    requires confirmation.Some? ==> confirmation.value in CONFIRMATION_CODES
    ensures var body := Wrapped(text, prefix, confirmation);
            && body != [] && CR !in body && QUERY !in body
            && (Hex.IsDigit(body[0]) || body[0] in {BACKSLASH, AT})
  {
    var body := Wrapped(text, prefix, confirmation);
    EndedIsPlain(text, confirmation);
    forall c | c in body
      ensures c in Ended(text, confirmation) || Some(c) == prefix
    {}
  }

  lemma EndedIsPlain(text: seq<Byte>, confirmation: Option<Byte>)
    requires text != [] && Hex.AllDigits(text)
    requires confirmation.Some? ==> confirmation.value in CONFIRMATION_CODES
    ensures CR !in Ended(text, confirmation) && QUERY !in Ended(text, confirmation)
    ensures Ended(text, confirmation) != [] && Hex.IsDigit(Ended(text, confirmation)[0])
  {
    ConfirmationCodesAreLetters();
    assert text[0] in text;
    forall c | c in Ended(text, confirmation)
      ensures Hex.IsDigit(c) || Some(c) == confirmation
    {}
  }

  lemma StartOfLine(body: seq<Byte>, tail: seq<Byte>)
    requires body != [] && CR !in body && QUERY !in body
    requires Hex.IsDigit(body[0]) || body[0] in {BACKSLASH, AT}
    ensures StartToPci(body + [CR] + tail) == Frame(|body|)
  {
    var data := body + [CR] + tail;
    FindAfter(body, [CR], tail);
    NoQueryBefore(body, tail);
    assert data[0] == body[0];
  }

  lemma NoQueryBefore(body: seq<Byte>, tail: seq<Byte>)
    requires QUERY !in body
    ensures Find(body + [CR] + tail, [QUERY]).Some? ==> Find(body + [CR] + tail, [QUERY]).value > |body|
  {
    var data := body + [CR] + tail;
    assert forall k | 0 <= k < |body| :: data[k] == body[k] && body[k] in body;
    assert data[|body|] == CR;
    FindByte(data, QUERY);
  }

  lemma Unwrap(text: seq<Byte>, prefix: Option<Byte>, confirmation: Option<Byte>, checksum: bool, strict: bool)
    requires |text| >= 2 && Hex.AllDigits(text)
    requires prefix in {None, Some(BACKSLASH), Some(AT)}
    requires confirmation.Some? ==> confirmation.value in CONFIRMATION_CODES
    ensures OpenEnvelope(Wrapped(text, prefix, confirmation), checksum, strict)
         == Some(Envelope(text, checksum && prefix != Some(AT), prefix != Some(BACKSLASH), confirmation))
  {
    var body := Wrapped(text, prefix, confirmation);
    EndedIsPlain(text, confirmation);
    assert prefix.Some? ==> body[1..] == Ended(text, confirmation);
    Unend(text, checksum && prefix != Some(AT), prefix != Some(BACKSLASH), confirmation, strict);
  }

  lemma Unend(text: seq<Byte>, checksum: bool, bareCal: bool, confirmation: Option<Byte>, strict: bool)
    requires text != [] && Hex.AllDigits(text)
    requires confirmation.Some? ==> confirmation.value in CONFIRMATION_CODES
    ensures OpenText(Ended(text, confirmation), checksum, bareCal, strict)
         == Some(Envelope(text, checksum, bareCal, confirmation))
  {
    ConfirmationCodesAreLetters();
    assert text[|text| - 1] in text;
    if confirmation.Some? {
      assert (text + [confirmation.value])[..|text|] == text;
    }
  }

  /** To the PCI: `\` before any addressed packet; none, or `@` which waives the checksum, before device management. */
  lemma ToPciRoundTrip(p: Packet, prefix: Option<Byte>, checksum: bool, strict: bool, tail: seq<Byte>)
    requires p.Addressed() && Carried(p) && ToPciMeta(p.meta)
    requires prefix == Some(BACKSLASH) || (p.DeviceManagement? && (prefix == None || prefix == Some(AT)))
    requires p.meta.checksum == (checksum && prefix != Some(AT))
    ensures ClientFrame(p, prefix).Ok?
    ensures DecodePacket(ClientFrame(p, prefix).value + tail, checksum, strict, false)
         == Decoded(Some(p), |ClientFrame(p, prefix).value|)
  {
    Encodes(p);
    var text := EncodePacket(p).value;
    var frame := Wrapped(text, prefix, p.meta.confirmation) + [CR];
    TextRoundTrip(p, false, prefix != Some(BACKSLASH), strict, |frame|);
    LineToPci(text, prefix, p.meta.confirmation, checksum, strict, tail);
  }

  /** The limits on CALs are exact: apart from them nothing keeps a point-to-point frame from coming back. */
  lemma PointToPointRoundTripIff(p: Packet, strict: bool, tail: seq<Byte>)
    requires p.PointToPoint? && !p.bridged && p.hops == [] && p.meta.priorityClass < 4 && FromPciMeta(p.meta)
    ensures EncodePacket(p).Ok?
    ensures DecodePacket(EncodePacket(p).value + [CR, LF] + tail, p.meta.checksum, strict, true).packet == Some(p)
       <==> forall c | c in p.cals :: Cals.WellFormed(c)
  {
    if forall c | c in p.cals :: Cals.WellFormed(c) {
      FromPciRoundTrip(p, strict, tail);
    } else {
      StreamRoundTripIff(p.cals);
      var payload := [p.unitAddress, 0] + Cals.EncodeAll(p.cals);
      assert Payload(p) == Ok(payload) && payload[2..] == Cals.EncodeAll(p.cals);
      var raw := HeaderOf(p) + payload;
      RawBytesRoundTrip(raw, p.meta, strict);
      LineFromPci(EncodePacket(p).value, p.meta.checksum, strict, tail);
      FlagsFields(DAT_PP, false, p.meta.priorityClass);
      assert raw[2..] == payload && raw[0] == Flags(DAT_PP, false, p.meta.priorityClass);
    }
  }

  // ---- Replies without a header ---------------------------------------------------------

  /** The bytes of a frame are this packet, however long its line. */
  ghost predicate AlwaysDecodes(raw: seq<Byte>, checksum: bool, fromPci: bool, confirmation: Option<Byte>, p: Packet)
    requires raw != []
  {
    forall n: nat :: DecodeBody(raw, checksum, fromPci, false, confirmation, n) == Ok((p, n))
  }

  lemma BytesAreDecoded(text: seq<Byte>, raw: seq<Byte>, checksum: bool, fromPci: bool, confirmation: Option<Byte>,
                        p: Packet, strict: bool, n: nat)
    requires raw != [] && RawBytes(text, checksum, strict) == Ok(raw)
    requires AlwaysDecodes(raw, checksum, fromPci, confirmation, p)
    ensures DecodeText(Envelope(text, checksum, false, confirmation), strict, fromPci, n) == Decoded(Some(p), n)
  {}

  lemma TextFromPci(raw: seq<Byte>, meta: Meta, p: Packet, strict: bool, tail: seq<Byte>)
    requires raw != [] && AlwaysDecodes(raw, meta.checksum, true, None, p)
    ensures var text := Hex.Encode(Finish(raw, meta));
            DecodePacket(text + [CR, LF] + tail, meta.checksum, strict, true) == Decoded(Some(p), |text| + 2)
  {
    var text := Hex.Encode(Finish(raw, meta));
    RawBytesRoundTrip(raw, meta, strict);
    LineFromPci(text, meta.checksum, strict, tail);
    BytesAreDecoded(text, raw, meta.checksum, true, None, p, strict, |text| + 2);
  }

  lemma TextToPci(raw: seq<Byte>, meta: Meta, p: Packet, strict: bool, tail: seq<Byte>)
    requires raw != [] && (meta.confirmation.Some? ==> meta.confirmation.value in CONFIRMATION_CODES)
    requires AlwaysDecodes(raw, meta.checksum, false, meta.confirmation, p)
    ensures var line := Wrapped(Hex.Encode(Finish(raw, meta)), Some(BACKSLASH), meta.confirmation) + [CR];
            DecodePacket(line + tail, meta.checksum, strict, false) == Decoded(Some(p), |line|)
  {
    var text := Hex.Encode(Finish(raw, meta));
    RawBytesRoundTrip(raw, meta, strict);
    LineToPci(text, Some(BACKSLASH), meta.confirmation, meta.checksum, strict, tail);
    BytesAreDecoded(text, raw, meta.checksum, false, meta.confirmation, p, strict,
                    |Wrapped(text, Some(BACKSLASH), meta.confirmation)| + 1);
  }

  lemma DirectBody(raw: seq<Byte>, cals: seq<Cal>, checksum: bool)
    requires raw != [] && IsDirectCal(raw[0], true) && Cals.DecodeAll(raw) == Ok(cals)
    ensures AlwaysDecodes(raw, checksum, true, None,
                          PointToPoint(Meta(checksum, raw[0] / 64, None, None), 0, false, [], cals))
  {}

  lemma FirstOfAll(cals: seq<Cal>)
    requires cals != []
    ensures Cals.EncodeAll(cals) != [] && Cals.EncodeAll(cals)[0] == Cals.Encode(cals[0])[0]
  {}

  /** A reply that is nothing but CALs, the first byte of which could not be that of a header, is read as them. */
  lemma DirectRoundTrip(cals: seq<Cal>, checksum: bool, strict: bool, tail: seq<Byte>)
    requires cals != [] && forall c | c in cals :: Cals.WellFormed(c)
    requires var first := Cals.Encode(cals[0])[0]; first % 8 !in {3, 5, 6} && first / 32 % 2 == 0
    ensures var meta := Meta(checksum, Cals.Encode(cals[0])[0] / 64, None, None);
            var text := Hex.Encode(Finish(Cals.EncodeAll(cals), meta));
            DecodePacket(text + [CR, LF] + tail, checksum, strict, true)
            == Decoded(Some(PointToPoint(meta, 0, false, [], cals)), |text| + 2)
  {
    var meta := Meta(checksum, Cals.Encode(cals[0])[0] / 64, None, None);
    FirstOfAll(cals);
    StreamRoundTrip(cals);
    DirectText(Cals.EncodeAll(cals), meta, cals, strict, tail);
  }

  lemma DirectText(raw: seq<Byte>, meta: Meta, cals: seq<Cal>, strict: bool, tail: seq<Byte>)
    requires raw != [] && IsDirectCal(raw[0], true) && Cals.DecodeAll(raw) == Ok(cals)
    requires meta == Meta(meta.checksum, raw[0] / 64, None, None)
    ensures var text := Hex.Encode(Finish(raw, meta));
            DecodePacket(text + [CR, LF] + tail, meta.checksum, strict, true)
            == Decoded(Some(PointToPoint(meta, 0, false, [], cals)), |text| + 2)
  {
    DirectBody(raw, cals, meta.checksum);
    TextFromPci(raw, meta, PointToPoint(meta, 0, false, [], cals), strict, tail);
  }

  // ---- Tokens ---------------------------------------------------------------------------

  /** What a server takes without waiting for a line: a reset, a stray `null`, and the shortcut written once or
      twice. */
  lemma TokensToPci(tail: seq<Byte>, checksum: bool, strict: bool)
    ensures DecodePacket([0x7E] + tail, checksum, strict, false) == Decoded(Some(Packet.Reset), 1)
    ensures DecodePacket([0x6E, 0x75, 0x6C, 0x6C] + tail, checksum, strict, false) == Decoded(None, 4)
    ensures DecodePacket([0x7C, 0x0D] + tail, checksum, strict, false) == Decoded(Some(SmartConnect), 2)
    ensures DecodePacket([0x7C, 0x7C, 0x0D] + tail, checksum, strict, false) == Decoded(Some(SmartConnect), 3)
  {
    StartIsToken([0x7E] + tail, checksum, strict);
    StartsItself(NULL_TEXT, tail);
    StartIsToken(NULL_TEXT + tail, checksum, strict);
    StartsItself(CONNECT, tail);
    StartIsToken(CONNECT + tail, checksum, strict);
    StartsItself(CONNECT_TWICE, tail);
    assert (CONNECT_TWICE + tail)[..2] == [0x7C, 0x7C];
    StartIsToken(CONNECT_TWICE + tail, checksum, strict);
  }

  lemma StartsItself(token: seq<Byte>, tail: seq<Byte>)
    ensures StartsWith(token + tail, token)
  {}

  lemma StartIsToken(data: seq<Byte>, checksum: bool, strict: bool)
    requires data != []
    ensures StartToPci(data).Token? ==> DecodePacket(data, checksum, strict, false) == StartToPci(data).decoded
  {}

  /** Of a line cancelled by `?` before its end nothing is left; an empty line is nothing either. */
  lemma NothingToPci(text: seq<Byte>, tail: seq<Byte>, checksum: bool, strict: bool)
    requires text != [] && text[0] !in {0x7E, 0x6E, 0x7C} && 0x3F !in text && 0x0D !in text && 0x0D in tail
    ensures DecodePacket(text + [0x3F] + tail, checksum, strict, false) == Decoded(None, |text| + 1)
    ensures DecodePacket([0x0D] + tail, checksum, strict, false) == Decoded(None, 1)
  {
    CancelledLine(text, tail);
    StartIsToken(text + [0x3F] + tail, checksum, strict);
    FirstByteIsFound([CR] + tail, CR, 0);
    FindByte([CR] + tail, QUERY);
  }

  lemma CancelledLine(text: seq<Byte>, tail: seq<Byte>)
    requires text != [] && text[0] !in {0x7E, 0x6E, 0x7C} && QUERY !in text && CR !in text && CR in tail
    ensures StartToPci(text + [QUERY] + tail) == Token(Decoded(None, |text| + 1))
  {
    var data := text + [QUERY] + tail;
    FindAfter(text, [QUERY], tail);
    FindByte(data, CR);
    assert CR in data;
    assert forall k | 0 <= k < |text| :: data[k] == text[k] && text[k] in text;
    assert data[|text|] == QUERY;
  }

  /** What a client takes at once: a power-up, an error, and a confirmation, which is a success just if a dot follows
      its code. */
  lemma TokensFromPci(code: Byte, mark: Byte, tail: seq<Byte>, checksum: bool, strict: bool)
    ensures DecodePacket([0x2B] + tail, checksum, strict, true) == Decoded(Some(PowerOn), 1)
    ensures DecodePacket([0x21] + tail, checksum, strict, true) == Decoded(Some(PciError), 1)
    ensures 0x67 <= code <= 0x7A ==>
              DecodePacket([code, mark] + tail, checksum, strict, true)
              == Decoded(Some(Confirmation(code, mark == 0x2E)), 2)
    ensures DecodePacket([0x0D, 0x0A] + tail, checksum, strict, true) == Decoded(None, 2)
  {
    ConfirmationCodesAreLetters();
    assert ([0x0D, 0x0A] + tail)[0..2] == [CR, LF];
    FirstIsFound([0x0D, 0x0A] + tail, [CR, LF], 0);
  }

  // ---- Bridged frames -------------------------------------------------------------------

  /** What follows the header of a bridged frame: bridge, length code, hops, unit and CALs. */
  function BridgedPayload(bridge: Byte, hops: seq<Byte>, unit: Byte, cals: seq<Cal>): seq<Byte>
    requires |hops| <= 5
  {
    [bridge, 9 * (|hops| + 1)] + hops + [unit] + Cals.EncodeAll(cals)
  }

  lemma Sliced(a: Byte, b: Byte, hops: seq<Byte>, unit: Byte, rest: seq<Byte>)
    ensures var data, n := [a, b] + hops + [unit] + rest, |hops|;
            data[0] == a && data[1] == b && data[2..n + 2] == hops && data[n + 2] == unit && data[n + 3..] == rest
  {}

  lemma BridgedDecodes(data: seq<Byte>, meta: Meta, n: nat, cals: seq<Cal>)
    requires |data| >= n + 3 && data[0] != 0 && data[1] != 0 && BridgeLength(data[1]) == Some(n)
    requires Cals.DecodeAll(data[n + 3..]) == Ok(cals)
    ensures DecodePp(data, meta) == Ok(PointToPoint(meta, data[n + 2], true, data[2..n + 2], cals))
  {}

  lemma BridgedPayloadRoundTrip(bridge: Byte, hops: seq<Byte>, unit: Byte, cals: seq<Cal>, meta: Meta)
    requires bridge != 0 && |hops| <= 5 && forall c | c in cals :: Cals.WellFormed(c)
    ensures DecodePp(BridgedPayload(bridge, hops, unit, cals), meta) == Ok(PointToPoint(meta, unit, true, hops, cals))
  {
    StreamRoundTrip(cals);
    BridgeCodes(|hops|);
    Sliced(bridge, 9 * (|hops| + 1), hops, unit, Cals.EncodeAll(cals));
    BridgedDecodes(BridgedPayload(bridge, hops, unit, cals), meta, |hops|, cals);
  }

  /** The length codes are the multiples of nine. */
  lemma BridgeCodes(k: nat)
    requires k <= 5
    ensures BridgeLength(9 * (k + 1)) == Some(k)
  {}

  lemma HeaderOfPp(priority: Byte)
    requires priority < 4
    ensures var h := 64 * priority + 6; h < 256 && h % 8 == 6 && h / 32 % 2 == 0 && h / 64 == priority
  {}

  lemma BodyFromPci(source: Byte, data: seq<Byte>, meta: Meta, p: Packet)
    requires meta.priorityClass < 4 && meta.confirmation == None && DecodePp(data, meta) == Ok(p)
    requires meta.source == if source == 0 then None else Some(source)
    ensures AlwaysDecodes([64 * meta.priorityClass + 6, source] + data, meta.checksum, true, None, p)
  {
    HeaderOfPp(meta.priorityClass);
    var raw := [64 * meta.priorityClass + 6, source] + data;
    assert raw[2..] == data && raw[0] == 64 * meta.priorityClass + 6 && raw[1] == source;
  }

  lemma BodyToPci(data: seq<Byte>, meta: Meta, p: Packet)
    requires meta.priorityClass < 4 && meta.source == None && DecodePp(data, meta) == Ok(p)
    ensures AlwaysDecodes([64 * meta.priorityClass + 6] + data, meta.checksum, false, meta.confirmation, p)
  {
    HeaderOfPp(meta.priorityClass);
    var raw := [64 * meta.priorityClass + 6] + data;
    assert raw[1..] == data && raw[0] == 64 * meta.priorityClass + 6;
  }

  /** A bridged frame from the PCI is read with its hops, unit and CALs, for any number of hops up to five. */
  lemma BridgedFromPci(meta: Meta, source: Byte, bridge: Byte, hops: seq<Byte>, unit: Byte, cals: seq<Cal>,
                       strict: bool, tail: seq<Byte>)
    requires bridge != 0 && |hops| <= 5 && forall c | c in cals :: Cals.WellFormed(c)
    requires meta.priorityClass < 4 && meta.confirmation == None
    requires meta.source == if source == 0 then None else Some(source)
    ensures var raw := [64 * meta.priorityClass + 6, source] + BridgedPayload(bridge, hops, unit, cals);
            var text := Hex.Encode(Finish(raw, meta));
            DecodePacket(text + [CR, LF] + tail, meta.checksum, strict, true)
            == Decoded(Some(PointToPoint(meta, unit, true, hops, cals)), |text| + 2)
  {
    var data, p := BridgedPayload(bridge, hops, unit, cals), PointToPoint(meta, unit, true, hops, cals);
    var raw := [64 * meta.priorityClass + 6, source] + data;
    BridgedPayloadRoundTrip(bridge, hops, unit, cals, meta);
    BodyFromPci(source, data, meta, p);
    TextFromPci(raw, meta, p, strict, tail);
  }

  /** So is one of a client. */
  lemma BridgedToPci(meta: Meta, bridge: Byte, hops: seq<Byte>, unit: Byte, cals: seq<Cal>, strict: bool,
                     tail: seq<Byte>)
    requires bridge != 0 && |hops| <= 5 && forall c | c in cals :: Cals.WellFormed(c)
    requires meta.priorityClass < 4 && ToPciMeta(meta)
    ensures var raw := [64 * meta.priorityClass + 6] + BridgedPayload(bridge, hops, unit, cals);
            var line := Wrapped(Hex.Encode(Finish(raw, meta)), Some(BACKSLASH), meta.confirmation) + [CR];
            DecodePacket(line + tail, meta.checksum, strict, false)
            == Decoded(Some(PointToPoint(meta, unit, true, hops, cals)), |line|)
  {
    var data, p := BridgedPayload(bridge, hops, unit, cals), PointToPoint(meta, unit, true, hops, cals);
    var raw := [64 * meta.priorityClass + 6] + data;
    BridgedPayloadRoundTrip(bridge, hops, unit, cals, meta);
    BodyToPci(data, meta, p);
    TextToPci(raw, meta, p, strict, tail);
  }

  // ---- What is refused ------------------------------------------------------------------

  /** A line of digits that is not whole bytes, or whose bytes do not sum to zero, is an invalid packet, and just it. */
  lemma DamagedIsRefused(text: seq<Byte>, tail: seq<Byte>)
    requires |text| >= 2 && Hex.AllDigits(text)
    requires |text| % 2 == 1 || Checksum.Sum(Hex.Decode(text).value) % 256 != 0
    ensures DecodePacket(text + [CR, LF] + tail, true, true, true) == Decoded(Some(Invalid), |text| + 2)
    ensures DecodePacket([BACKSLASH] + text + [CR] + tail, true, true, false) == Decoded(Some(Invalid), |text| + 2)
  {
    LineFromPci(text, true, true, tail);
    LineToPci(text, Some(BACKSLASH), None, true, true, tail);
    if |text| % 2 == 0 {
      Checksum.AcceptedIffSumIsZero(Hex.Decode(text).value);
    }
    RefusedText(Envelope(text, true, false, None), true, |text| + 2);
    RefusedText(Envelope(text, true, false, None), false, |text| + 2);
  }

  lemma RefusedText(e: Envelope, fromPci: bool, n: nat)
    requires RawBytes(e.text, e.checksum, true).Err? && !e.bareCal
    ensures DecodeText(e, true, fromPci, n) == Decoded(Some(Invalid), n)
  {}

  /** A lenient decoder drops the last byte of such a frame, whatever it is. */
  lemma LenientIgnoresChecksum(raw: seq<Byte>, last: Byte)
    requires raw != []
    ensures RawBytes(Hex.Encode(raw + [last]), true, false) == Ok(raw)
  {
    Hex.DecodeInvertsEncode(raw + [last]);
    assert (raw + [last])[..|raw|] == raw;
  }

  /** Device management is accepted only with its three bytes and nothing else: parameter, zero, value. */
  lemma AcceptedManagement(raw: seq<Byte>, checksum: bool, fromPci: bool, confirmation: Option<Byte>, consumed: nat)
    requires raw != [] && raw[0] / 32 % 2 == 1
    ensures var header := if fromPci then 2 else 1;
            var r := DecodeBody(raw, checksum, fromPci, false, confirmation, consumed);
            && (r.Ok? <==> |raw| == header + 3 && raw[header + 1] == 0)
            && (r.Ok? ==> r.value.1 == consumed && r.value.0.DeviceManagement?
                          && r.value.0.parameter == raw[header] && r.value.0.value == raw[header + 2])
  {}

  /** A last character that is no digit is the confirmation code, and a strict decoder refuses it if it is none. `@`
      waives the checksum, and it or no prefix at all may stand before a bare CAL. */
  lemma LastCharacterIsCode(text: seq<Byte>, c: Byte, checksum: bool, strict: bool)
    requires !Hex.IsDigit(c)
    ensures var refused := c !in CONFIRMATION_CODES && strict;
            && OpenEnvelope([BACKSLASH] + (text + [c]), checksum, strict)
               == (if refused then None else Some(Envelope(text, checksum, false, Some(c))))
            && OpenEnvelope([AT] + (text + [c]), checksum, strict)
               == (if refused then None else Some(Envelope(text, false, true, Some(c))))
            && (text != [] && text[0] !in {AT, BACKSLASH} ==>
                  OpenEnvelope(text + [c], checksum, strict)
                  == if refused then None else Some(Envelope(text, checksum, true, Some(c))))
  {
    assert (text + [c])[..|text|] == text;
    assert ([BACKSLASH] + (text + [c]))[1..] == text + [c] && ([AT] + (text + [c]))[1..] == text + [c];
  }

  /** What is known of a frame from its header: its class, from the PCI a source that is not zero, from a client its
      confirmation code. */
  predicate HeaderTells(raw: seq<Byte>, checksum: bool, fromPci: bool, confirmation: Option<Byte>, meta: Meta) {
    && raw != [] && (fromPci ==> |raw| >= 2)
    && meta.checksum == checksum && meta.priorityClass == raw[0] / 64
    && meta.source == (if fromPci && raw[1] != 0 then Some(raw[1]) else None)
    && meta.confirmation == if fromPci then None else confirmation
  }

  /** A multipoint frame is accepted exactly without routing and with messages its application has; a point-to-point
      one that names no bridge exactly with CALs; one of any other address type never. */
  lemma AcceptedFrames(raw: seq<Byte>, checksum: bool, fromPci: bool, confirmation: Option<Byte>, consumed: nat)
    requires raw != [] && raw[0] / 32 % 2 == 0 && !IsDirectCal(raw[0], fromPci)
    ensures var at := if fromPci then 2 else 1;
            var r := DecodeBody(raw, checksum, fromPci, false, confirmation, consumed);
            && (r.Ok? ==> r.value.1 == consumed && r.value.0.Addressed()
                          && HeaderTells(raw, checksum, fromPci, confirmation, r.value.0.meta))
            && (raw[0] % 8 == 5 ==>
                  && (r.Ok? <==> |raw| >= at + 2 && raw[at + 1] == 0 && Sals.DecodeAll(raw[at], raw[at + 2..]).Ok?)
                  && (r.Ok? ==> r.value.0.PointToMultipoint? && r.value.0.application == raw[at]
                                && Ok(r.value.0.sals) == Sals.DecodeAll(raw[at], raw[at + 2..])))
            && (raw[0] % 8 == 6 && |raw| >= at + 2 && raw[at + 1] == 0 ==>
                  && (r.Ok? <==> Cals.DecodeAll(raw[at + 2..]).Ok?)
                  && (r.Ok? ==> r.value.0.PointToPoint? && r.value.0.unitAddress == raw[at] && !r.value.0.bridged
                                && r.value.0.hops == [] && Ok(r.value.0.cals) == Cals.DecodeAll(raw[at + 2..])))
            && (raw[0] % 8 !in {5, 6} ==> r.Err?)
  {
    var at := if fromPci then 2 else 1;
    if |raw| >= at + 2 {
      var rest := raw[at..];
      assert rest[0] == raw[at] && rest[1] == raw[at + 1] && rest[2..] == raw[at + 2..];
    }
  }

  /** The bytes name a bridge and `k` hops, and spell the packet. */
  predicate BridgedAs(data: seq<Byte>, meta: Meta, p: Packet, k: nat) {
    && k <= 5 && |data| >= k + 3 && data[0] != 0 && data[1] == 9 * (k + 1)
    && p.PointToPoint? && Cals.DecodeAll(data[k + 3..]) == Ok(p.cals)
    && p == PointToPoint(meta, data[k + 2], true, data[2..k + 2], p.cals)
  }

  /** Which bytes behind a header are a bridged frame, and which frame. */
  lemma BridgedIff(data: seq<Byte>, meta: Meta, p: Packet)
    requires |data| >= 2 && data[1] != 0
    ensures DecodePp(data, meta) == Ok(p) <==> exists k: nat :: BridgedAs(data, meta, p, k)
  {
    if k: nat :| BridgedAs(data, meta, p, k) {
      BridgeCodes(k);
    }
    if DecodePp(data, meta) == Ok(p) {
      assert BridgedAs(data, meta, p, BridgeLength(data[1]).value);
    }
  }
}
