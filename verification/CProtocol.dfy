/** The firmware's own implementation of the frames, in C: checksum, base 16, Manchester, both parsers.

    Input pointers are sequences; output buffers are arrays and the parsed-packet struct is an object,
    both filled in place. The functions state what the C functions compute. */
module CProtocol {
  import opened Bytes
  import opened Wrappers
  import Checksum
  import Hex
  import Sals
  import StatusReports

  const MAX_PACKET_SIZE := 256
  const APP_LIGHTING: Byte := 0x38

  // ---- Base 16 --------------------------------------------------------------------------

  /** The digit's value, lower case included, or -1. */
  function HexDigit(c: Byte): int {
    if 48 <= c <= 57 then c - 48
    else if 65 <= c <= 70 then c - 55
    else if 97 <= c <= 102 then c - 87
    else -1
  }

  predicate AllHex(text: seq<Byte>) {
    forall i | 0 <= i < |text| :: HexDigit(text[i]) >= 0
  }

  function HexBytes(text: seq<Byte>): (r: seq<Byte>)
    requires AllHex(text) && |text| % 2 == 0
    ensures |r| == |text| / 2
    ensures forall i | 0 <= i < |r| :: r[i] == 16 * HexDigit(text[2 * i]) + HexDigit(text[2 * i + 1])
  {
    seq(|text| / 2, i requires 0 <= i < |text| / 2 => 16 * HexDigit(text[2 * i]) + HexDigit(text[2 * i + 1]))
  }

  /** What `cbus_hex_decode` leaves in the first bytes of its output, or nothing where it returns -1. */
  function HexValue(text: seq<Byte>, capacity: nat): Option<seq<Byte>> {
    if |text| % 2 != 0 || |text| / 2 > capacity || !AllHex(text) then None else Some(HexBytes(text))
  }

  method HexDecode(text: seq<Byte>, out: array<Byte>) returns (n: int)
    modifies out
    ensures match HexValue(text, out.Length)
            case Some(value) => n == |value| && out[..n] == value && out[n..] == old(out[..])[n..]
            case None => n == -1
  {
    if |text| % 2 != 0 || |text| / 2 > out.Length {
      return -1;
    }
    for i := 0 to |text| / 2
      invariant forall k | 0 <= k < 2 * i :: HexDigit(text[k]) >= 0
      invariant forall k | 0 <= k < i :: out[k] == 16 * HexDigit(text[2 * k]) + HexDigit(text[2 * k + 1])
      invariant forall k | i <= k < out.Length :: out[k] == old(out[k])
    {
      var hi, lo := HexDigit(text[i * 2]), HexDigit(text[i * 2 + 1]);
      if hi < 0 || lo < 0 {
        return -1;
      }
      out[i] := 16 * hi + lo;
    }
    n := |text| / 2;
  }

  /** Writes the digits of `data` and a terminating zero; -1 if they do not fit. */
  method HexEncode(data: seq<Byte>, out: array<Byte>, from: nat, size: nat) returns (n: int)
    requires from + size <= out.Length
    modifies out
    ensures n == if 2 * |data| + 1 > size then -1 else 2 * |data|
    ensures n >= 0 ==> out[from..from + n] == Hex.Encode(data) && out[from + n] == 0
    ensures forall k | 0 <= k < from || from + 2 * |data| < k < out.Length :: out[k] == old(out[k])
  {
    if |data| * 2 + 1 > size {
      return -1;
    }
    ghost var text := Hex.Encode(data);
    for i := 0 to |data|
      invariant forall k | 0 <= k < 2 * i :: out[from + k] == text[k]
      invariant forall k | 0 <= k < from || from + 2 * i <= k < out.Length :: out[k] == old(out[k])
    {
      EncodeAt(data, i);
      out[from + i * 2] := Hex.Digit(data[i] / 16);
      out[from + i * 2 + 1] := Hex.Digit(data[i] % 16);
    }
    n := |data| * 2;
    out[from + n] := 0;
    assert out[from..from + n] == text;
  }

  lemma {:induction false} EncodeAt(data: seq<Byte>, i: nat)
    requires i < |data|
    ensures Hex.Encode(data)[2 * i] == Hex.Digit(data[i] / 16)
    ensures Hex.Encode(data)[2 * i + 1] == Hex.Digit(data[i] % 16)
  {
    if i > 0 {
      EncodeAt(data[1..], i - 1);
      assert Hex.Encode(data)[2..] == Hex.Encode(data[1..]);
    }
  }

  /** On the digits the Rust decoder accepts, the C decoder computes the same bytes. */
  lemma HexDecodersAgree(text: seq<Byte>, capacity: nat)
    requires Hex.Decode(text).Ok? && |text| / 2 <= capacity
    ensures HexValue(text, capacity) == Some(Hex.Decode(text).value)
  {
    assert forall i | 0 <= i < |text| :: text[i] in text;
    var value := Hex.Decode(text).value;
    forall i | 0 <= i < |value|
      ensures value[i] == HexBytes(text)[i]
    {
      Hex.DecodeAt(text, i);
    }
    assert value == HexBytes(text);
  }

  /** Digits of either case are read, and no other character. */
  lemma EitherCaseIsRead(text: seq<Byte>, capacity: nat)
    requires |text| % 2 == 0 && |text| / 2 <= capacity
    ensures HexValue(text, capacity).Some? <==> forall c | c in text :: Hex.IsDigit(c) || 0x61 <= c <= 0x66
    ensures forall i | 0 <= i < |text| && 0x61 <= text[i] <= 0x66 ::
              HexValue(text, capacity) == HexValue(text[i := text[i] - 0x20], capacity)
  {
    assert AllHex(text) <==> forall c | c in text :: HexDigit(c) >= 0;
    forall i | 0 <= i < |text| && 0x61 <= text[i] <= 0x66
      ensures HexValue(text, capacity) == HexValue(text[i := text[i] - 0x20], capacity)
    {
      var upper := text[i := text[i] - 0x20];
      assert forall k | 0 <= k < |text| :: HexDigit(upper[k]) == HexDigit(text[k]);
      if AllHex(text) {
        assert HexBytes(text) == HexBytes(upper);
      }
    }
  }

  // ---- Manchester -----------------------------------------------------------------------

  /** Searches the nibble table with one loop for all four nibbles; -1 if any is not in it. */
  method ManchesterDecode(b0: Byte, b1: Byte) returns (level: int)
    ensures level == match StatusReports.ManchesterDecode(b0, b1) case Some(v) => v case None => -1
  {
    var n0, n1, n2, n3 := -1, -1, -1, -1;
    for i := 0 to 4
      invariant Searched(n0, b0 % 16, i) && Searched(n1, b0 / 16, i)
      invariant Searched(n2, b1 % 16, i) && Searched(n3, b1 / 16, i)
    {
      if StatusReports.Nibble(i) == b0 % 16 { n0 := i; }
      if StatusReports.Nibble(i) == b0 / 16 { n1 := i; }
      if StatusReports.Nibble(i) == b1 % 16 { n2 := i; }
      if StatusReports.Nibble(i) == b1 / 16 { n3 := i; }
    }
    if n0 < 0 || n1 < 0 || n2 < 0 || n3 < 0 {
      return -1;
    }
    level := n0 + 4 * n1 + 16 * n2 + 64 * n3;
  }

  predicate Searched(found: int, nibble: int, limit: int) {
    match StatusReports.NibbleIndex(nibble)
    case Some(v) => found == if v < limit then v else -1
    case None => found == -1
  }

  // ---- Parsed packets -------------------------------------------------------------------

  datatype Kind =
    | Unknown | Reset | ScsShortcut | DeviceMgmt | LightingOn | LightingOff | LightingRamp | LightingTerminate
    | StatusRequest | ClockUpdate | PpOther

  datatype Fields = Fields(kind: Kind, application: Byte, group: Byte, level: Byte, rampRate: Byte, confCode: Byte,
                           source: Byte, dmParameter: Byte, dmValue: Byte, childApp: Byte, blockStart: Byte,
                           levelRequest: bool, levels: seq<Byte>)

  const ZERO := Fields(Unknown, 0, 0, 0, 0, 0, 0, 0, 0, 0, 0, false, [])

  /** The struct that a parser fills through a pointer, its members gathered in one value. `levels` stands for
      `level_data[..level_count]`, and `raw` for `raw[..raw_len]`, the bytes of the frame. */
  class ParsedPacket {
    var fields: Fields
    var raw: seq<Byte>

    constructor ()
      ensures fields == ZERO && raw == []
    {
      fields, raw := ZERO, [];
    }

    method Init()
      modifies this
      ensures fields == ZERO && raw == []
    {
      fields, raw := ZERO, [];
    }
  }

  predicate IsConfirmationCode(b: Byte) {
    b in CONFIRMATION_CODES
  }

  predicate IsRampRate(code: Byte) {
    Sals.RateToDuration(code).Some?
  }

  // ---- Responses from the PCI -----------------------------------------------------------

  /** A level as the firmware records it: 0 for a pair that does not decode. */
  function LevelOf(b0: Byte, b1: Byte): Byte {
    match StatusReports.ManchesterDecode(b0, b1)
    case Some(v) => v
    case None => 0
  }

  /** The levels of a status report: one per byte pair, at most 32. */
  function ReportLevels(data: seq<Byte>): (r: seq<Byte>)
    requires |data| % 2 == 0
    ensures |r| == if |data| < 64 then |data| / 2 else 32
    ensures forall i | 0 <= i < |r| :: r[i] == LevelOf(data[2 * i], data[2 * i + 1])
  {
    var count := if |data| < 64 then |data| / 2 else 32;
    seq(count, i requires 0 <= i < count => LevelOf(data[2 * i], data[2 * i + 1]))
  }

  /** A point-to-point frame whose first CAL, at byte 4, is an extended status of a lighting application. */
  predicate CarriesLevels(pkt: seq<Byte>) {
    |pkt| >= 5 && pkt[4] / 32 == 7 && pkt[4] % 32 >= 3 && 4 + pkt[4] % 32 + 1 <= |pkt| &&
    Sals.IsLightingApp(pkt[6]) && pkt[4] % 32 - 3 >= 2 && (pkt[4] % 32 - 3) % 2 == 0
  }

  /** What the parser records of the bytes of a response, the checksum already stripped. */
  function ResponseFields(pkt: seq<Byte>): Fields
    requires |pkt| >= 3
  {
    if pkt[0] % 8 == 5 && |pkt| >= 5 then
      var pm := ZERO.(source := pkt[1], application := pkt[2]);
      if Sals.IsLightingApp(pkt[2]) && |pkt| >= 6 then
        var cmd, to := pkt[4], pm.(group := pkt[5]);
        if cmd == Sals.LIGHT_ON then to.(kind := LightingOn, level := 255)
        else if cmd == Sals.LIGHT_OFF then to.(kind := LightingOff, level := 0)
        else if cmd == Sals.LIGHT_TERMINATE_RAMP then to.(kind := LightingTerminate)
        else if IsRampRate(cmd) && |pkt| >= 7 then to.(kind := LightingRamp, rampRate := cmd, level := pkt[6])
        else to
      else if pkt[2] == Sals.APP_CLOCK then pm.(kind := ClockUpdate)
      else pm
    else if pkt[0] % 8 == 6 && |pkt| >= 5 then
      if CarriesLevels(pkt) then
        ZERO.(kind := StatusRequest, source := pkt[1], childApp := pkt[6], blockStart := pkt[7],
           levels := ReportLevels(pkt[8..5 + pkt[4] % 32]))
      else ZERO.(kind := PpOther, source := pkt[1])
    else ZERO
  }

  /** The bytes of a response, its last byte stripped if the whole passes the checksum. */
  function ResponseBytes(text: seq<Byte>): Option<seq<Byte>> {
    match HexValue(text, MAX_PACKET_SIZE)
    case None => None
    case Some(pkt) =>
      if |pkt| < 4 then None
      else if Checksum.Validate(pkt) then Some(pkt[..|pkt| - 1])
      else Some(pkt)
  }

  /** The response parser; nothing where it returns false. */
  function PciResponse(text: seq<Byte>): Option<Fields> {
    if |text| < 4 || text[0] in {PLUS, BANG, 0x3E} then None
    else match ResponseBytes(text)
      case None => None
      case Some(pkt) => if ResponseFields(pkt).kind == Unknown then None else Some(ResponseFields(pkt))
  }

  lemma ResponseFrom(text: seq<Byte>, pkt: seq<Byte>)
    requires |text| >= 4 && text[0] !in {PLUS, BANG, 0x3E} && ResponseBytes(text) == Some(pkt) && |pkt| >= 3
    requires ResponseFields(pkt).kind != Unknown
    ensures PciResponse(text) == Some(ResponseFields(pkt))
  {}

  lemma ResponseBytesFrom(text: seq<Byte>, raw: seq<Byte>)
    requires HexValue(text, MAX_PACKET_SIZE) == Some(raw) && |raw| >= 4
    ensures ResponseBytes(text) == Some(if Checksum.Validate(raw) then raw[..|raw| - 1] else raw)
  {}

  /** A confirmation of two bytes is never read: every text shorter than four is refused. */
  lemma ShortResponsesAreRefused(code: Byte, flag: Byte, text: seq<Byte>)
    ensures PciResponse([code, flag]) == None
    ensures |text| < 4 ==> PciResponse(text) == None
  {}

  method ParsePciResponse(text: seq<Byte>, out: ParsedPacket) returns (ok: bool)
    modifies out
    ensures ok == PciResponse(text).Some?
    ensures ok ==> out.fields == PciResponse(text).value && Some(out.raw) == ResponseBytes(text)
  {
    if |text| < 4 {
      return false;
    }
    out.Init();
    if text[0] == PLUS || text[0] == BANG || text[0] == 0x3E {
      return false;
    }
    var buffer := new Byte[MAX_PACKET_SIZE];
    var length := HexDecode(text, buffer);
    if length < 4 {
      return false;
    }
    var valid := Checksum.VerifyC(buffer[..length]);
    if length >= 3 && valid {
      assert buffer[..length][..length - 1] == buffer[..length - 1];
      length := length - 1;
    }
    var pkt := buffer[..length];
    out.raw := pkt;
    ok := FillResponse(pkt, out);
  }

  method FillResponse(pkt: seq<Byte>, out: ParsedPacket) returns (ok: bool)
    requires |pkt| >= 3 && out.fields == ZERO
    modifies out
    ensures out.fields == ResponseFields(pkt)
    ensures ok == (ResponseFields(pkt).kind != Unknown) && out.raw == old(out.raw)
  {
    var dat := pkt[0] % 8;
    if dat == 5 && |pkt| >= 5 {
      out.fields := out.fields.(source := pkt[1], application := pkt[2]);
      if Sals.IsLightingApp(out.fields.application) && |pkt| >= 6 {
        var cmd := pkt[4];
        out.fields := out.fields.(group := pkt[5]);
        if cmd == Sals.LIGHT_ON {
          out.fields := out.fields.(kind := LightingOn, level := 255);
        } else if cmd == Sals.LIGHT_OFF {
          out.fields := out.fields.(kind := LightingOff, level := 0);
        } else if cmd == Sals.LIGHT_TERMINATE_RAMP {
          out.fields := out.fields.(kind := LightingTerminate);
        } else if IsRampRate(cmd) && |pkt| >= 7 {
          out.fields := out.fields.(kind := LightingRamp, rampRate := cmd, level := pkt[6]);
        }
      } else if out.fields.application == Sals.APP_CLOCK {
        out.fields := out.fields.(kind := ClockUpdate);
      }
    } else if dat == 6 && |pkt| >= 5 {
      ok := FillPointToPoint(pkt, out);
      return;
    }
    ok := out.fields.kind != Unknown;
  }

  method FillPointToPoint(pkt: seq<Byte>, out: ParsedPacket) returns (ok: bool)
    requires |pkt| >= 5 && pkt[0] % 8 == 6 && out.fields == ZERO
    modifies out
    ensures out.fields == ResponseFields(pkt) && ok && out.raw == old(out.raw)
  {
    out.fields := out.fields.(source := pkt[1]);
    var calCmd := pkt[4];
    if calCmd / 32 == 7 {
      var calTotal := calCmd % 32 + 1;
      var calEnd := 4 + calTotal;
      var replyLength := calTotal - 1;
      if calEnd <= |pkt| && replyLength >= 3 {
        var dataLength := replyLength - 3;
        if Sals.IsLightingApp(pkt[6]) && dataLength >= 2 && dataLength % 2 == 0 {
          out.fields := out.fields.(kind := StatusRequest, childApp := pkt[6], blockStart := pkt[7]);
          FillLevels(pkt[8..8 + dataLength], out);
          return true;
        }
      }
    }
    out.fields := out.fields.(kind := PpOther);
    return true;
  }

  predicate LevelsSoFar(levels: seq<Byte>, data: seq<Byte>) {
    2 * |levels| <= |data| && forall k | 0 <= k < |levels| :: levels[k] == LevelOf(data[2 * k], data[2 * k + 1])
  }

  lemma OneMoreLevel(levels: seq<Byte>, level: Byte, data: seq<Byte>)
    requires LevelsSoFar(levels, data) && 2 * |levels| + 1 < |data|
    requires level == LevelOf(data[2 * |levels|], data[2 * |levels| + 1])
    ensures LevelsSoFar(levels + [level], data)
  {}

  /** Decodes the pairs into `level_data`, which holds 32 levels. */
  method FillLevels(data: seq<Byte>, out: ParsedPacket)
    requires |data| % 2 == 0
    modifies out`fields
    ensures out.fields == old(out.fields).(levels := ReportLevels(data))
  {
    out.fields := out.fields.(levels := []);
    var i := 0;
    while i < |data| && |out.fields.levels| < 32
      invariant 0 <= i <= |data| && i == 2 * |out.fields.levels| && |out.fields.levels| <= 32
      invariant out.fields == old(out.fields).(levels := out.fields.levels) && LevelsSoFar(out.fields.levels, data)
    {
      var level := ManchesterDecode(data[i], data[i + 1]);
      var recorded: Byte := if level >= 0 then level else 0;
      OneMoreLevel(out.fields.levels, recorded, data);
      out.fields := out.fields.(levels := out.fields.levels + [recorded]);
      i := i + 2;
    }
    assert out.fields.levels == ReportLevels(data);
  }

  // ---- Commands to the PCI --------------------------------------------------------------

  /** The confirmation code at the end of an escaped command, and the digits between it and the backslash. */
  function EscapedParts(data: seq<Byte>): (r: (Byte, seq<Byte>))
    requires |data| >= 3
  {
    var last := data[|data| - 1];
    if IsConfirmationCode(last) then (last, data[1..|data| - 1]) else (0, data[1..])
  }

  /** What the parser records of the bytes of an escaped command. */
  function CommandFields(code: Byte, pkt: seq<Byte>): Fields
    requires |pkt| >= 1
  {
    var z := ZERO.(confCode := code);
    if pkt[0] % 8 == 5 && |pkt| >= 4 then
      var app := z.(application := pkt[1]);
      if pkt[1] == APP_LIGHTING then
        var cmd, to := pkt[3], app.(group := if |pkt| > 4 then pkt[4] else 0);
        if cmd == Sals.LIGHT_ON then to.(kind := LightingOn, level := 255)
        else if cmd == Sals.LIGHT_OFF then to.(kind := LightingOff, level := 0)
        else if cmd == Sals.LIGHT_TERMINATE_RAMP then to.(kind := LightingTerminate)
        else if IsRampRate(cmd) then
          to.(kind := LightingRamp, rampRate := cmd, level := if |pkt| > 5 then pkt[5] else 255)
        else to
      else if pkt[1] == Sals.APP_STATUS_REQUEST then
        var request := app.(kind := StatusRequest);
        if |pkt| >= 5 && pkt[3] == 0x7A then
          request.(childApp := pkt[4], blockStart := if |pkt| > 5 then pkt[5] else 0)
        else if |pkt| >= 6 && pkt[3] == 0x73 then
          request.(levelRequest := true, childApp := pkt[5], blockStart := if |pkt| > 6 then pkt[6] else 0)
        else request
      else if pkt[1] == Sals.APP_CLOCK then app.(kind := ClockUpdate)
      else app
    else if pkt[0] % 8 == 6 && |pkt| >= 3 then z.(kind := PpOther, source := pkt[1])
    else z
  }

  function Escaped(data: seq<Byte>): Option<Fields> {
    if |data| < 3 then None
    else match HexValue(EscapedParts(data).1, MAX_PACKET_SIZE)
      case None => None
      case Some(pkt) =>
        if pkt == [] || CommandFields(EscapedParts(data).0, pkt).kind == Unknown then None
        else Some(CommandFields(EscapedParts(data).0, pkt))
  }

  /** `A3`, parameter, `00`, value, after an optional `@`. */
  function DmCommand(data: seq<Byte>): Option<Fields> {
    var offset := if data != [] && data[0] == AT then 1 else 0;
    if |data| < offset + 8 || data[offset] != 0x41 || data[offset + 1] != 0x33 then None
    else match HexValue(data[offset + 2..offset + 8], 3)
      case None => None
      case Some(decoded) => Some(ZERO.(kind := DeviceMgmt, dmParameter := decoded[0], dmValue := decoded[2]))
  }

  /** `A3`, after an optional `@`, in a command of sufficient length. */
  predicate IsDmCommand(data: seq<Byte>) {
    || (|data| >= 6 && data[0] == 0x41 && data[1] == 0x33)
    || (|data| >= 7 && data[0] == AT && data[1] == 0x41 && data[2] == 0x33)
  }

  /** A reset or the shortcut to smart mode, which carry no bytes. */
  function ShortCommand(data: seq<Byte>): (r: Option<Fields>)
    ensures r.Some? ==> data != [] && data[0] in {TILDE, PIPE}
  {
    if data == [TILDE, TILDE, TILDE] || data == [TILDE] then Some(ZERO.(kind := Reset))
    else if data == [PIPE] then Some(ZERO.(kind := ScsShortcut))
    else None
  }

  /** The command parser; nothing where it returns false. */
  function Command(data: seq<Byte>): Option<Fields> {
    if data == [] then None
    else if ShortCommand(data).Some? then ShortCommand(data)
    else if IsDmCommand(data) then DmCommand(data)
    else if data[0] == BACKSLASH then Escaped(data)
    else None
  }

  /** The bytes kept with a command: those of an escaped one. */
  function CommandBytes(data: seq<Byte>): seq<Byte> {
    if |data| >= 3 && data[0] == BACKSLASH && HexValue(EscapedParts(data).1, MAX_PACKET_SIZE).Some?
    then HexValue(EscapedParts(data).1, MAX_PACKET_SIZE).value
    else []
  }

  /** What a cut-off command is taken for: of a missing group 0, of a missing level full brightness, and of a missing
      block the first. */
  lemma ShortCommandsAreFilled(code: Byte, flags: Byte, app: Byte, rate: Byte)
    requires flags % 8 == 5
    ensures var on, off := CommandFields(code, [flags, 0x38, 0, 0x79]), CommandFields(code, [flags, 0x38, 0, 0x01]);
            on.kind == LightingOn && on.group == 0 && off.kind == LightingOff && off.group == 0
    ensures var f, g := CommandFields(code, [flags, 0x38, 0, rate]), CommandFields(code, [flags, 0x38, 0, rate, app]);
            IsRampRate(rate) ==> f.kind == g.kind == LightingRamp && f.level == g.level == 255
                                 && f.group == 0 && g.group == app
    ensures var binary, level := CommandFields(code, [flags, 0xFF, 0, 0x7A, app]),
                                 CommandFields(code, [flags, 0xFF, 0, 0x73, 0x07, app]);
            && binary.kind == level.kind == StatusRequest && binary.blockStart == level.blockStart == 0
            && binary.childApp == level.childApp == app && !binary.levelRequest && level.levelRequest
    ensures CommandFields(code, [flags, 0xFF, 0, 0x73, app]) == CommandFields(code, [flags, 0xFF, 0, 0])
  {
    Sals.RateCodes(rate);
  }

  method ParseCommand(data: seq<Byte>, out: ParsedPacket) returns (ok: bool)
    modifies out
    ensures ok == Command(data).Some?
    ensures ok ==> out.fields == Command(data).value && out.raw == CommandBytes(data)
  {
    out.Init();
    if |data| == 0 {
      return false;
    }
    ok := ParseShortCommand(data, out);
    if ok {
      return;
    }
    if IsDmCommand(data) {
      ok := ParseDmCommand(data, out);
      return;
    }
    if data[0] == BACKSLASH {
      ok := ParseEscapedCommand(data, out);
      return;
    }
    return false;
  }

  method ParseShortCommand(data: seq<Byte>, out: ParsedPacket) returns (ok: bool)
    requires out.fields == ZERO
    modifies out
    ensures ok == ShortCommand(data).Some? && out.raw == old(out.raw)
    ensures out.fields == if ok then ShortCommand(data).value else ZERO
  {
    if |data| == 3 && data[0] == TILDE && data[1] == TILDE && data[2] == TILDE {
      out.fields := out.fields.(kind := Reset);
      return true;
    }
    if |data| == 1 && data[0] == TILDE {
      out.fields := out.fields.(kind := Reset);
      return true;
    }
    if |data| == 1 && data[0] == PIPE {
      out.fields := out.fields.(kind := ScsShortcut);
      return true;
    }
    return false;
  }

  method ParseDmCommand(data: seq<Byte>, out: ParsedPacket) returns (ok: bool)
    requires out.fields == ZERO
    modifies out
    ensures ok == DmCommand(data).Some?
    ensures ok ==> out.fields == DmCommand(data).value && out.raw == old(out.raw)
  {
    var offset := 0;
    if |data| > 0 && data[0] == AT {
      offset := 1;
    }
    if |data| < offset + 8 || data[offset] != 0x41 || data[offset + 1] != 0x33 {
      return false;
    }
    var decoded := new Byte[3];
    var n := HexDecode(data[offset + 2..offset + 8], decoded);
    if n != 3 {
      return false;
    }
    assert decoded[..3][0] == decoded[0] && decoded[..3][2] == decoded[2];
    out.fields := out.fields.(kind := DeviceMgmt, dmParameter := decoded[0], dmValue := decoded[2]);
    return true;
  }

  method ParseEscapedCommand(data: seq<Byte>, out: ParsedPacket) returns (ok: bool)
    requires out.fields == ZERO
    modifies out
    ensures ok == Escaped(data).Some?
    ensures ok ==> out.fields == Escaped(data).value
    ensures ok ==> HexValue(EscapedParts(data).1, MAX_PACKET_SIZE) == Some(out.raw)
  {
    if |data| < 3 {
      return false;
    }
    var text := data[1..];
    if IsConfirmationCode(text[|text| - 1]) {
      out.fields := out.fields.(confCode := text[|text| - 1]);
      text := text[..|text| - 1];
      assert text == data[1..|data| - 1];
    }
    assert (out.fields.confCode, text) == EscapedParts(data);
    var buffer := new Byte[MAX_PACKET_SIZE];
    var length := HexDecode(text, buffer);
    if length < 1 {
      return false;
    }
    var pkt := buffer[..length];
    out.raw := pkt;
    FillCommand(pkt, out);
    ok := out.fields.kind != Unknown;
  }

  method FillCommand(pkt: seq<Byte>, out: ParsedPacket)
    requires |pkt| >= 1 && out.fields == ZERO.(confCode := out.fields.confCode)
    modifies out
    ensures out.fields == CommandFields(old(out.fields.confCode), pkt) && out.raw == old(out.raw)
  {
    var dat := pkt[0] % 8;
    if dat == 5 && |pkt| >= 4 {
      out.fields := out.fields.(application := pkt[1]);
      if out.fields.application == APP_LIGHTING {
        var cmd := pkt[3];
        out.fields := out.fields.(group := if |pkt| > 4 then pkt[4] else 0);
        if cmd == Sals.LIGHT_ON {
          out.fields := out.fields.(kind := LightingOn, level := 255);
        } else if cmd == Sals.LIGHT_OFF {
          out.fields := out.fields.(kind := LightingOff, level := 0);
        } else if cmd == Sals.LIGHT_TERMINATE_RAMP {
          out.fields := out.fields.(kind := LightingTerminate);
        } else if IsRampRate(cmd) {
          out.fields := out.fields.(kind := LightingRamp, rampRate := cmd, level := if |pkt| > 5 then pkt[5] else 255);
        }
      } else if out.fields.application == Sals.APP_STATUS_REQUEST {
        out.fields := out.fields.(kind := StatusRequest);
        if |pkt| >= 5 {
          if pkt[3] == 0x7A {
            out.fields := out.fields.(levelRequest := false, childApp := pkt[4],
                                      blockStart := if |pkt| > 5 then pkt[5] else 0);
          } else if pkt[3] == 0x73 && |pkt| >= 6 {
            out.fields := out.fields.(levelRequest := true, childApp := pkt[5],
                                      blockStart := if |pkt| > 6 then pkt[6] else 0);
          }
        }
      } else if out.fields.application == Sals.APP_CLOCK {
        out.fields := out.fields.(kind := ClockUpdate);
      }
    } else if dat == 6 && |pkt| >= 3 {
      out.fields := out.fields.(kind := PpOther, source := pkt[1]);
    }
  }
}
