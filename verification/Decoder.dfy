/** The frame decoder: one packet from the head of a byte buffer. */
module Decoder {
  import opened Bytes
  import opened Cals
  import opened Packets
  import opened Wrappers
  import Checksum
  import Hex
  import Sals

  /** A decoded packet, or none for input that is consumed and ignored, with the number of bytes consumed.
      Nothing consumed means that more input is needed. */
  datatype Decoded = Decoded(packet: Option<Packet>, consumed: nat)

  predicate IsBareCal(packet: Option<Packet>) {
    packet.Some? && packet.value.BareCal?
  }

  /** A frame of `length` bytes consumes just these, except that a bare CAL towards the PCI counts
      its own length, at least 2, on top. */
  predicate Accounts(d: Decoded, fromPci: bool, length: nat) {
    if IsBareCal(d.packet) then !fromPci && d.consumed >= length + 2 else d.consumed == length
  }

  const WAIT := Decoded(None, 0)
  const NULL_TEXT: seq<Byte> := [0x6E, 0x75, 0x6C, 0x6C]
  const CONNECT: seq<Byte> := [PIPE, CR]
  const CONNECT_TWICE: seq<Byte> := [PIPE, PIPE, CR]

  predicate StartsWith(data: seq<Byte>, token: seq<Byte>) {
    |token| <= |data| && data[..|token|] == token
  }

  /** How the buffer starts: a transport-level token already understood, too little input, or a frame
      that ends before the terminator at `end`. */
  datatype Start = Token(decoded: Decoded) | Incomplete | Frame(end: nat)

  function StartFromPci(data: seq<Byte>): Start
    requires data != []
  {
    if data[0] == PLUS then Token(Decoded(Some(PowerOn), 1))
    else if data[0] == BANG then Token(Decoded(Some(PciError), 1))
    else if |data| < 2 then Incomplete
    else if data[0] in CONFIRMATION_CODES then
      Token(Decoded(Some(Confirmation(data[0], data[1] == DOT)), 2))
    else match Find(data, [CR, LF])
      case Some(end) => Frame(end)
      case None => Incomplete
  }

  /** Towards the PCI: reset, the stray `null`, the connect shortcut, and section 4.2.4's cancel `?`. */
  function StartToPci(data: seq<Byte>): Start
    requires data != []
  {
    if data[0] == TILDE then Token(Decoded(Some(Reset), 1))
    else if StartsWith(data, NULL_TEXT) then Token(Decoded(None, 4))
    else if StartsWith(data, CONNECT) then Token(Decoded(Some(SmartConnect), 2))
    else if StartsWith(data, CONNECT_TWICE) then Token(Decoded(Some(SmartConnect), 3))
    else
      var query, cr := Find(data, [QUERY]), Find(data, [CR]);
      if query.Some? && cr.Some? && query.value < cr.value then Token(Decoded(None, query.value + 1))
      else if cr.Some? then Frame(cr.value)
      else Incomplete
  }

  function DecodePacket(data: seq<Byte>, checksum: bool, strict: bool, fromPci: bool): Decoded {
    if data == [] then WAIT
    else match if fromPci then StartFromPci(data) else StartToPci(data)
      case Token(decoded) => decoded
      case Incomplete => WAIT
      case Frame(end) =>
        DecodeFrame(data[..end], checksum, strict, fromPci, end + if fromPci then 2 else 1)
  }

  function DecodeFrame(body: seq<Byte>, checksum: bool, strict: bool, fromPci: bool, consumed: nat): (d: Decoded)
    ensures Accounts(d, fromPci, consumed)
  {
    if body == [] then Decoded(None, consumed)
    else if fromPci then DecodeText(Envelope(body, checksum, false, None), strict, true, consumed)
    else match OpenEnvelope(body, checksum, strict)
      case None => Decoded(Some(Invalid), consumed)
      case Some(envelope) => DecodeText(envelope, strict, false, consumed)
  }

  /** A client frame stripped of its prefix and confirmation code. */
  datatype Envelope = Envelope(text: seq<Byte>, checksum: bool, bareCal: bool, confirmation: Option<Byte>)

  /** `@` is a once-off basic-mode command (section 4.2.7), `\` an ordinary one; no prefix is basic mode too.
      A last character that is no digit is the confirmation code. */
  function OpenEnvelope(body: seq<Byte>, checksum: bool, strict: bool): Option<Envelope>
    requires body != []
  {
    var text := if body[0] == AT || body[0] == BACKSLASH then body[1..] else body;
    OpenText(text, checksum && body[0] != AT, body[0] != BACKSLASH, strict)
  }

  function OpenText(text: seq<Byte>, needsChecksum: bool, bareCal: bool, strict: bool): Option<Envelope> {
    if text == [] then None
    else
      var last := text[|text| - 1];
      if Hex.IsDigit(last) then Some(Envelope(text, needsChecksum, bareCal, None))
      else if last !in CONFIRMATION_CODES && strict then None
      else Some(Envelope(text[..|text| - 1], needsChecksum, bareCal, Some(last)))
  }

  function DecodeText(e: Envelope, strict: bool, fromPci: bool, consumed: nat): (d: Decoded)
    requires fromPci ==> !e.bareCal
    ensures Accounts(d, fromPci, consumed)
  {
    match RawBytes(e.text, e.checksum, strict)
    case Err => Decoded(Some(Invalid), consumed)
    case Ok(raw) =>
      match DecodeBody(raw, e.checksum, fromPci, e.bareCal, e.confirmation, consumed)
      case Err => Decoded(Some(Invalid), consumed)
      case Ok((packet, c)) => Decoded(Some(packet), c)
  }

  /** The bytes of a frame, its checksum verified and removed; lenient decoding keeps a bad one. */
  function RawBytes(text: seq<Byte>, checksum: bool, strict: bool): (r: Result<seq<Byte>>)
    ensures r.Ok? ==> r.value != []
  {
    var raw :- Hex.Decode(text);
    if checksum && strict && !Checksum.Validate(raw) then Err
    else
      var stripped := if checksum && raw != [] then raw[..|raw| - 1] else raw;
      if stripped == [] then Err else Ok(stripped)
  }

  /** A frame from the PCI whose first byte is not a flags byte but the header of a CAL. */
  predicate IsDirectCal(flags: Byte, fromPci: bool) {
    fromPci && flags % 8 !in {DAT_PPM, DAT_PM, DAT_PP} && flags / 32 % 2 == 0
  }

  function DecodeBody(raw: seq<Byte>, checksum: bool, fromPci: bool, bareCal: bool, confirmation: Option<Byte>,
                      consumed: nat): (r: Result<(Packet, nat)>)
    requires raw != []
    requires fromPci ==> !bareCal
    ensures r.Ok? ==> Accounts(Decoded(Some(r.value.0), r.value.1), fromPci, consumed)
  {
    var flags := raw[0];
    var priority := flags / 64;
    if IsDirectCal(flags, fromPci) then
      var cals :- Cals.DecodeAll(raw);
      Ok((PointToPoint(Meta(checksum, priority, None, None), 0, false, [], cals), consumed))
    else if fromPci && |raw| < 2 then Err
    else
      var rest := raw[if fromPci then 2 else 1..];
      var source := if fromPci && raw[1] != 0 then Some(raw[1]) else None;
      var meta := Meta(checksum, priority, source, if fromPci then None else confirmation);
      if flags / 32 % 2 == 1 then
        if |rest| != 3 || rest[1] != 0 then Err
        else Ok((DeviceManagement(meta, rest[0], rest[2]), consumed))
      else if bareCal then
        var one :- Cals.DecodeOne(rest);
        // the CAL length is counted on top of the frame
        Ok((BareCal(one.0), consumed + one.1))
      else if flags % 8 == DAT_PP then
        var p :- DecodePp(rest, meta);
        Ok((p, consumed))
      else if flags % 8 == DAT_PM then
        var p :- DecodePm(rest, meta);
        Ok((p, consumed))
      else Err
  }

  function DecodePm(data: seq<Byte>, meta: Meta): (r: Result<Packet>)
    ensures r.Ok? ==> r.value.PointToMultipoint?
  {
    if |data| < 2 || data[1] != 0 then Err
    else
      var sals :- Sals.DecodeAll(data[0], data[2..]);
      Ok(PointToMultipoint(meta, data[0], sals))
  }

  function BridgeLength(code: Byte): Option<nat> {
    match code
    case 0x09 => Some(0)
    case 0x12 => Some(1)
    case 0x1B => Some(2)
    case 0x24 => Some(3)
    case 0x2D => Some(4)
    case 0x36 => Some(5)
    case _ => None
  }

  function DecodePp(data: seq<Byte>, meta: Meta): (r: Result<Packet>)
    ensures r.Ok? ==> r.value.PointToPoint?
  {
    if |data| < 2 then Err
    else if data[1] == 0 then
      var cals :- Cals.DecodeAll(data[2..]);
      Ok(PointToPoint(meta, data[0], false, [], cals))
    else match BridgeLength(data[1])
      case None => Err
      case Some(n) =>
        if |data| < n + 3 || data[0] == 0 then Err
        else
          var cals :- Cals.DecodeAll(data[n + 3..]);
          Ok(PointToPoint(meta, data[n + 2], true, data[2..n + 2], cals))
  }

  /** `decode_pp` as the source runs it: a slice that narrows while hops and CALs are collected. */
  method DecodePpLoop(data: seq<Byte>, meta: Meta) returns (r: Result<Packet>)
    ensures r == DecodePp(data, meta)
  {
    if |data| < 2 {
      return Err;
    }
    var rest := data[2..];
    var unit, bridged, hops := data[0], false, [];
    if data[1] != 0 {
      var length := BridgeLength(data[1]);
      if length.None? {
        return Err;
      }
      for i := 0 to length.value
        invariant i + 2 <= |data| && rest == data[i + 2..] && hops == data[2..i + 2]
      {
        if rest == [] {
          return Err;
        }
        hops := hops + [rest[0]];
        rest := rest[1..];
      }
      if rest == [] {
        return Err;
      }
      unit, rest, bridged := rest[0], rest[1..], true;
      if data[0] == 0 {
        return Err;
      }
    }
    var cals := CollectCals(rest);
    if cals.Err? {
      return Err;
    }
    r := Ok(PointToPoint(meta, unit, bridged, hops, cals.value));
  }
}
