/** Packets and their encoders. */
module Packets {
  import opened Bytes
  import opened Cals
  import opened Sals
  import opened Wrappers
  import Checksum
  import Hex

  /** Envelope of the addressed packets. The source address is absent when it is 0. */
  datatype Meta = Meta(checksum: bool, priorityClass: Byte, source: Option<Byte>, confirmation: Option<Byte>)

  datatype Packet =
    | PowerOn
    | PciError
    | Reset
    | SmartConnect
    | Confirmation(code: Byte, success: bool)
    | Invalid
    | BareCal(cal: Cal)
    | DeviceManagement(meta: Meta, parameter: Byte, value: Byte)
    | PointToMultipoint(meta: Meta, application: Byte, sals: seq<Sal>)
    | PointToPoint(meta: Meta, unitAddress: Byte, bridged: bool, hops: seq<Byte>, cals: seq<Cal>)
  {
    predicate Addressed() {
      DeviceManagement? || PointToMultipoint? || PointToPoint?
    }
  }

  // Destination address types, section 3.4 of the Serial Interface Guide.
  const DAT_PPM: Byte := 0x03
  const DAT_PM: Byte := 0x05
  const DAT_PP: Byte := 0x06

  /** Address type in the low three bits, the device-management bit, the priority class on top. */
  function Flags(dat: Byte, dp: bool, priorityClass: Byte): Byte {
    dat % 8 + (if dp then 0x20 else 0) + priorityClass % 4 * 64
  }

  function Header(meta: Meta, dat: Byte, dp: bool): seq<Byte> {
    [Flags(dat, dp, meta.priorityClass)] + (if meta.source.Some? then [meta.source.value] else [])
  }

  function Finish(p: seq<Byte>, meta: Meta): seq<Byte> {
    if meta.checksum then Checksum.Append(p) else p
  }

  /** What follows the header, before any checksum. */
  function Payload(p: Packet): Result<seq<Byte>>
    requires p.Addressed()
  {
    match p
    case DeviceManagement(_, parameter, value) => Ok([parameter, 0, value])
    case PointToMultipoint(_, application, sals) =>
      var body :- Sals.EncodeAll(sals);
      Ok([application, 0] + body)
    case PointToPoint(_, unit, bridged, _, cals) =>
      if bridged then Err else Ok([unit, 0] + Cals.EncodeAll(cals))
  }

  function HeaderOf(p: Packet): seq<Byte>
    requires p.Addressed()
  {
    match p
    case DeviceManagement(meta, _, _) => Header(meta, DAT_PPM, true)
    case PointToMultipoint(meta, _, _) => Header(meta, DAT_PM, false)
    case PointToPoint(meta, _, _, _, _) => Header(meta, DAT_PP, false)
  }

  /** The binary encoding; the special packets encode to their raw tokens. */
  function Encode(p: Packet): Result<seq<Byte>> {
    match p
    case Reset => Ok([TILDE])
    case SmartConnect => Ok([PIPE])
    case PowerOn => Ok([PLUS, PLUS])
    case PciError => Ok([BANG])
    case Confirmation(code, success) => Ok([code, if success then DOT else HASH])
    case Invalid => Err
    case BareCal(cal) => Ok(Cals.Encode(cal))
    case _ =>
      var payload :- Payload(p);
      Ok(Finish(HeaderOf(p) + payload, p.meta))
  }

  /** The text on the wire: base 16 for addressed packets, the raw token for the special ones. */
  function EncodePacket(p: Packet): Result<seq<Byte>> {
    if p.Invalid? || p.BareCal? then Err
    else
      var raw :- Encode(p);
      Ok(if p.Addressed() then Hex.Encode(raw) else raw)
  }

  /** `encode` as the source runs it: a token, or a buffer that the SAL and CAL loops append to. */
  method EncodeInto(p: Packet) returns (r: Result<seq<Byte>>)
    ensures r == Encode(p)
  {
    match p {
      case Reset =>
        return Ok([TILDE]);
      case SmartConnect =>
        return Ok([PIPE]);
      case PowerOn =>
        return Ok([PLUS, PLUS]);
      case PciError =>
        return Ok([BANG]);
      case Confirmation(code, success) =>
        return Ok([code, if success then DOT else HASH]);
      case Invalid =>
        return Err;
      case BareCal(cal) =>
        return Ok(Cals.Encode(cal));
      case _ =>
    }
    var buffer := AppendPayload(HeaderOf(p), p);
    if buffer.Err? {
      return Err;
    }
    r := Ok(Finish(buffer.value, p.meta));
  }

  method AppendPayload(header: seq<Byte>, p: Packet) returns (r: Result<seq<Byte>>)
    requires p.Addressed()
    ensures r.Ok? == Payload(p).Ok?
    ensures r.Ok? ==> r.value == header + Payload(p).value
  {
    match p {
      case DeviceManagement(_, parameter, value) =>
        r := Ok(header + [parameter, 0, value]);
      case PointToMultipoint(_, application, sals) =>
        r := AppendSals(header + [application, 0], sals);
        if r.Ok? {
          Regroup(header, [application, 0], Sals.EncodeAll(sals).value);
        }
      case PointToPoint(_, unit, bridged, _, cals) =>
        if bridged {
          return Err;
        }
        var buffer := AppendCals(header + [unit, 0], cals);
        Regroup(header, [unit, 0], Cals.EncodeAll(cals));
        r := Ok(buffer);
    }
  }
}
