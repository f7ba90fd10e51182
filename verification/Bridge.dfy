/** The firmware's PCI emulation: group levels and the answers to client commands. */
module Bridge {
  import opened Bytes
  import opened CProtocol
  import opened Wrappers
  import Checksum
  import Hex

  const MAX_GROUPS := 256

  type Counter = c: int | 0 <= c < 0x1_0000_0000

  datatype State = State(levels: seq<Byte>, smartMode: bool, confirmationIndex: Byte,
                         received: Counter, processed: Counter, errors: Counter)

  function Bump(c: Counter): Counter {
    (c + 1) % 0x1_0000_0000
  }

  /** The effect of a parsed command on the levels. */
  function LevelsAfter(levels: seq<Byte>, f: Fields): (r: seq<Byte>)
    requires |levels| == MAX_GROUPS
    ensures |r| == MAX_GROUPS
  {
    match f.kind
    case Reset => seq(MAX_GROUPS, i => 0)
    case LightingOn => levels[f.group := 255]
    case LightingOff => levels[f.group := 0]
    case LightingRamp => levels[f.group := f.level]
    case _ => levels
  }

  /** The state after a command the parser accepted or refused. */
  function After(s: State, parsed: Option<Fields>): (r: State)
    requires |s.levels| == MAX_GROUPS
    ensures |r.levels| == MAX_GROUPS
  {
    match parsed
    case None => s.(received := Bump(s.received), errors := Bump(s.errors))
    case Some(f) =>
      var counted := s.(received := Bump(s.received), processed := Bump(s.processed),
                        levels := LevelsAfter(s.levels, f));
      match f.kind
      case Reset => counted.(confirmationIndex := 0, smartMode := false)
      case ScsShortcut => counted.(smartMode := true)
      case DeviceMgmt => counted.(smartMode := s.smartMode || (f.dmParameter == 0x30 && f.dmValue / 16 % 2 == 1))
      case _ => counted
  }

  function Confirmation(code: Byte): seq<Byte> {
    [code, DOT, CR, LF]
  }

  /** The level of group `block + i`, 0 beyond the last group. */
  function BlockLevel(levels: seq<Byte>, block: Byte, i: nat): Byte
    requires |levels| == MAX_GROUPS
  {
    if block + i < MAX_GROUPS then levels[block + i] else 0
  }

  /** Seven header bytes and 31 levels: the checksum takes the place of the 32nd. */
  function StatusBytes(app: Byte, block: Byte, levels: seq<Byte>): seq<Byte>
    requires |levels| == MAX_GROUPS
  {
    [0x86, 0xFF, 0xFF, 0x00, app, 0xE0, block] + seq(31, i requires 0 <= i < 31 => BlockLevel(levels, block, i))
  }

  function StatusFrame(app: Byte, block: Byte, levels: seq<Byte>): seq<Byte>
    requires |levels| == MAX_GROUPS
  {
    Hex.Encode(Checksum.Append(StatusBytes(app, block, levels))) + [CR, LF]
  }

  /** The answer written to a response buffer of `size` bytes. */
  function Response(levels: seq<Byte>, f: Fields, size: nat): seq<Byte>
    requires |levels| == MAX_GROUPS
  {
    var confirmation := if f.confCode != 0 then Confirmation(f.confCode) else [];
    match f.kind
    case DeviceMgmt => Confirmation(0x67)
    case LightingOn => confirmation
    case LightingOff => confirmation
    case LightingRamp => confirmation
    case LightingTerminate => confirmation
    case ClockUpdate => confirmation
    case StatusRequest =>
      confirmation + (if size - |confirmation| < 81 then [] else StatusFrame(f.childApp, f.blockStart, levels))
    case _ => []
  }

  /** The answer has room for the status frame behind the confirmation. */
  predicate HasRoom(f: Fields, size: nat) {
    size >= 81 + if f.confCode != 0 then 4 else 0
  }

  lemma StatusBytesDifferIff(app: Byte, block: Byte, levels: seq<Byte>, group: nat, level: Byte)
    requires |levels| == MAX_GROUPS && group < MAX_GROUPS
    ensures StatusBytes(app, block, levels[group := level]) != StatusBytes(app, block, levels)
       <==> block <= group <= block + 30 && levels[group] != level
  {
    var was, changed := StatusBytes(app, block, levels), StatusBytes(app, block, levels[group := level]);
    assert forall i | 0 <= i < 31 ::
        was[7 + i] == BlockLevel(levels, block, i) && changed[7 + i] == BlockLevel(levels[group := level], block, i);
    if block <= group <= block + 30 {
      assert was[7 + (group - block)] == levels[group] && changed[7 + (group - block)] == level;
      if levels[group] == level {
        assert levels[group := level] == levels;
      }
    } else {
      assert changed == was;
    }
  }

  lemma FramesDifferIff(a: seq<Byte>, b: seq<Byte>)
    requires |a| == |b|
    ensures Hex.Encode(Checksum.Append(a)) + [CR, LF] == Hex.Encode(Checksum.Append(b)) + [CR, LF] <==> a == b
  {
    var x, y := Hex.Encode(Checksum.Append(a)), Hex.Encode(Checksum.Append(b));
    if x + [CR, LF] == y + [CR, LF] {
      assert x == (x + [CR, LF])[..|x|] == (y + [CR, LF])[..|x|] == y;
      Hex.DecodeInvertsEncode(Checksum.Append(a));
      Hex.DecodeInvertsEncode(Checksum.Append(b));
      assert a == Checksum.Append(a)[..|a|] == Checksum.Append(b)[..|a|] == b;
    }
  }

  /** A status answer tells the levels of 31 groups, from the start of its block on, and of no other: a changed level
      shows exactly if its group is among them. */
  lemma GroupIsReportedIff(levels: seq<Byte>, f: Fields, size: nat, group: nat, level: Byte)
    requires |levels| == MAX_GROUPS && group < MAX_GROUPS && f.kind == StatusRequest
    ensures Response(levels[group := level], f, size) != Response(levels, f, size)
       <==> HasRoom(f, size) && f.blockStart <= group <= f.blockStart + 30 && levels[group] != level
  {
    var changed := levels[group := level];
    if HasRoom(f, size) {
      var confirmation := if f.confCode != 0 then Confirmation(f.confCode) else [];
      StatusBytesDifferIff(f.childApp, f.blockStart, levels, group, level);
      FramesDifferIff(StatusBytes(f.childApp, f.blockStart, changed), StatusBytes(f.childApp, f.blockStart, levels));
      SamePrefix(confirmation, StatusFrame(f.childApp, f.blockStart, changed),
                 StatusFrame(f.childApp, f.blockStart, levels));
    }
  }

  lemma SamePrefix(prefix: seq<Byte>, a: seq<Byte>, b: seq<Byte>)
    ensures prefix + a == prefix + b <==> a == b
  {
    assert (prefix + a)[|prefix|..] == a && (prefix + b)[|prefix|..] == b;
  }

  /** So, because of the overwritten byte, it never depends on the last group of the block asked for. */
  lemma LastGroupIsNotReported(levels: seq<Byte>, f: Fields, size: nat, group: nat, level: Byte)
    requires |levels| == MAX_GROUPS && group < MAX_GROUPS
    requires f.kind == StatusRequest && group == f.blockStart + 31
    ensures Response(levels[group := level], f, size) == Response(levels, f, size)
  {
    GroupIsReportedIff(levels, f, size, group, level);
  }

  /** Which commands are answered, and with what: device management always with a success for `g`, any other command
      with a success for its own code if it asks for one, and nothing else but the status behind it. */
  lemma AnswersAre(levels: seq<Byte>, f: Fields, size: nat)
    requires |levels| == MAX_GROUPS
    ensures var r, confirmed := Response(levels, f, size), [f.confCode, 0x2E, 0x0D, 0x0A];
            && (f.kind == DeviceMgmt ==> r == [0x67, 0x2E, 0x0D, 0x0A])
            && (f.kind in {LightingOn, LightingOff, LightingRamp, LightingTerminate, ClockUpdate} ==>
                  r == if f.confCode != 0 then confirmed else [])
            && (f.kind in {Unknown, Reset, ScsShortcut, PpOther} ==> r == [])
            && (f.kind == StatusRequest && f.confCode != 0 ==> confirmed <= r)
            && (f.kind == StatusRequest ==>
                  |r| == (if f.confCode != 0 then 4 else 0)
                         + if size >= 81 + (if f.confCode != 0 then 4 else 0) then 80 else 0)
  {}

  /** What a status frame tells: a line of 39 bytes in base 16 that sum to zero, with the levels of 31 groups from the
      seventh on. */
  lemma StatusFrameTells(app: Byte, block: Byte, levels: seq<Byte>)
    requires |levels| == MAX_GROUPS
    ensures var frame := StatusFrame(app, block, levels);
            |frame| == 80 && frame[78..] == [0x0D, 0x0A] &&
            match Hex.Decode(frame[..78])
            case Err => false
            case Ok(bytes) =>
              && |bytes| == 39 && Checksum.Sum(bytes) % 256 == 0
              && bytes[..7] == [0x86, 0xFF, 0xFF, 0x00, app, 0xE0, block]
              && forall k | 7 <= k < 38 :: bytes[k] == if block + k - 7 < 256 then levels[block + k - 7] else 0
  {
    var raw := StatusBytes(app, block, levels);
    var bytes := Checksum.Append(raw);
    Hex.DecodeInvertsEncode(bytes);
    Checksum.AppendedIsAccepted(raw, Checksum.Compute(raw));
    Checksum.AcceptedIffSumIsZero(bytes);
    assert StatusFrame(app, block, levels)[..78] == Hex.Encode(bytes);
    assert bytes[..7] == raw[..7];
    forall k | 7 <= k < 38
      ensures bytes[k] == if block + k - 7 < 256 then levels[block + k - 7] else 0
    {
      assert bytes[k] == raw[k] == BlockLevel(levels, block, k - 7);
    }
  }

  /** What the texts without a frame do: a reset darkens every group and leaves smart mode, the shortcut enters it. */
  lemma TextsAreObeyed(s: State)
    requires |s.levels| == MAX_GROUPS
    ensures var r := After(s, Command([0x7E]));
            (forall g | 0 <= g < 256 :: r.levels[g] == 0) && !r.smartMode && r.confirmationIndex == 0
    ensures After(s, Command([0x7E, 0x7E, 0x7E])) == After(s, Command([0x7E]))
    ensures After(s, Command([0x7C])).smartMode && After(s, Command([0x7C])).levels == s.levels
  {
    assert Command([0x7E]) == ShortCommand([0x7E]) && Command([0x7E, 0x7E, 0x7E]) == ShortCommand([0x7E, 0x7E, 0x7E]);
    assert Command([0x7C]) == ShortCommand([0x7C]);
  }

  /** Every command counts once, as processed or as an error, in 32 bits. */
  lemma CommandsAreCounted(s: State, parsed: Option<Fields>)
    requires |s.levels| == MAX_GROUPS
    ensures var r, one := After(s, parsed), if parsed.Some? then 1 else 0;
            && r.received == (s.received + 1) % 0x1_0000_0000
            && r.processed == (s.processed + one) % 0x1_0000_0000
            && r.errors == (s.errors + 1 - one) % 0x1_0000_0000
  {}

  class Bridge {
    const levels: array<Byte>
    var smartMode: bool
    var confirmationIndex: Byte
    var received: Counter
    var processed: Counter
    var errors: Counter

    ghost predicate Valid()
      reads this
    {
      levels.Length == MAX_GROUPS
    }

    ghost function Value(): (s: State)
      requires Valid()
      reads this, levels
      ensures |s.levels| == MAX_GROUPS
    {
      State(levels[..], smartMode, confirmationIndex, received, processed, errors)
    }

    constructor ()
      ensures Valid() && fresh(levels)
      ensures Value() == State(seq(MAX_GROUPS, i => 0), true, 0, 0, 0, 0)
    {
      levels := new Byte[MAX_GROUPS](i => 0);
      smartMode, confirmationIndex, received, processed, errors := true, 0, 0, 0, 0;
    }

    method Reset()
      requires Valid()
      modifies this, levels
      ensures Valid()
      ensures Value() == old(Value()).(levels := seq(MAX_GROUPS, i => 0), confirmationIndex := 0, smartMode := false)
    {
      for g := 0 to MAX_GROUPS
        invariant forall k | 0 <= k < g :: levels[k] == 0
        modifies levels
      {
        levels[g] := 0;
      }
      confirmationIndex := 0;
      smartMode := false;
      assert levels[..] == seq(MAX_GROUPS, i => 0);
    }

    /** Processes one command and writes the answer to `resp`; returns the answer's length. */
    method ProcessCommand(cmd: seq<Byte>, resp: array<Byte>) returns (n: nat)
      requires Valid() && resp != levels
      modifies this, levels, resp
      ensures Valid() && n <= resp.Length
      ensures cmd == [] || resp.Length < 4 ==> n == 0 && Value() == old(Value())
      ensures cmd != [] && resp.Length >= 4 ==>
                Value() == After(old(Value()), Command(cmd)) &&
                resp[..n] == if Command(cmd).None? then []
                             else Response(old(levels[..]), Command(cmd).value, resp.Length)
    {
      if |cmd| == 0 || resp.Length < 4 {
        return 0;
      }
      received := Bump(received);
      var pkt := new ParsedPacket();
      var ok := ParseCommand(cmd, pkt);
      if !ok {
        errors := Bump(errors);
        return 0;
      }
      processed := Bump(processed);
      n := 0;
      ghost var f := pkt.fields;
      match pkt.fields.kind {
        case Reset =>
          Reset();
        case ScsShortcut =>
          smartMode := true;
        case DeviceMgmt =>
          if pkt.fields.dmParameter == 0x30 && pkt.fields.dmValue / 16 % 2 == 1 {
            smartMode := true;
          }
          n := EncodeConfirmation(0x67, resp);
        case LightingOn =>
          levels[pkt.fields.group] := 255;
          n := ConfirmIfAsked(pkt.fields.confCode, resp);
        case LightingOff =>
          levels[pkt.fields.group] := 0;
          n := ConfirmIfAsked(pkt.fields.confCode, resp);
        case LightingRamp =>
          levels[pkt.fields.group] := pkt.fields.level;
          n := ConfirmIfAsked(pkt.fields.confCode, resp);
        case LightingTerminate =>
          n := ConfirmIfAsked(pkt.fields.confCode, resp);
        case StatusRequest =>
          n := AnswerStatus(pkt, levels, resp);
        case ClockUpdate =>
          n := ConfirmIfAsked(pkt.fields.confCode, resp);
        case _ =>
      }
    }
  }

  method EncodeConfirmation(code: Byte, out: array<Byte>) returns (n: nat)
    requires out.Length >= 4
    modifies out
    ensures n == 4 && out[..n] == Confirmation(code)
  {
    out[0], out[1], out[2], out[3] := code, DOT, CR, LF;
    n := 4;
  }

  method ConfirmIfAsked(code: Byte, out: array<Byte>) returns (n: nat)
    requires out.Length >= 4
    modifies out
    ensures n <= 4 && out[..n] == if code != 0 then Confirmation(code) else []
  {
    n := 0;
    if code != 0 {
      n := EncodeConfirmation(code, out);
    }
  }

  /** A confirmation if asked for, then the level report if it fits. */
  method AnswerStatus(pkt: ParsedPacket, levels: array<Byte>, resp: array<Byte>) returns (n: nat)
    requires levels.Length == MAX_GROUPS && levels != resp && resp.Length >= 4
    requires pkt.fields.kind == StatusRequest
    modifies resp
    ensures n <= resp.Length && resp[..n] == Response(levels[..], pkt.fields, resp.Length)
  {
    n := ConfirmIfAsked(pkt.fields.confCode, resp);
    var length := EncodeLevelStatus(pkt.fields.childApp, pkt.fields.blockStart, levels, resp, n);
    if length > 0 {
      assert resp[..n + length] == resp[..n] + resp[n..n + length];
      n := n + length;
    }
  }

  /** `cbus_encode_level_status` at offset `from` of the response; -1 if it does not fit. */
  method EncodeLevelStatus(app: Byte, block: Byte, levels: array<Byte>, out: array<Byte>, from: nat) returns (n: int)
    requires levels.Length == MAX_GROUPS && levels != out && from <= out.Length
    modifies out
    ensures n == if out.Length - from < 81 then -1 else 80
    ensures n > 0 ==> out[from..from + n] == StatusFrame(app, block, levels[..])
    ensures out[..from] == old(out[..from])
  {
    var binary := new Byte[40];
    FillStatus(app, block, levels, binary);
    var length := 39;
    binary[length - 1] := Checksum.Compute(binary[..length - 1]);
    assert binary[..39] == binary[..38] + [binary[38]];
    if out.Length - from < length * 2 + 3 {
      return -1;
    }
    var digits := HexEncode(binary[..length], out, from, out.Length - from - 2);
    out[from + digits] := CR;
    out[from + digits + 1] := LF;
    n := digits + 2;
    assert out[from..from + n] == out[from..from + digits] + [CR, LF];
  }

  /** Header and all 32 levels; the caller overwrites the last one. */
  method FillStatus(app: Byte, block: Byte, levels: array<Byte>, binary: array<Byte>)
    requires levels.Length == MAX_GROUPS && levels != binary && binary.Length == 40
    modifies binary
    ensures binary[..38] == StatusBytes(app, block, levels[..])
  {
    binary[0], binary[1], binary[2], binary[3] := 0x86, 0xFF, 0xFF, 0x00;
    binary[4], binary[5], binary[6] := app, 0xE0, block;
    for i := 0 to 32
      invariant binary[..7] == [0x86, 0xFF, 0xFF, 0x00, app, 0xE0, block]
      invariant forall k | 0 <= k < i :: binary[7 + k] == BlockLevel(levels[..], block, k)
    {
      binary[7 + i] := if block + i < MAX_GROUPS then levels[block + i] else 0;
    }
    assert binary[..38] == binary[..7] + binary[7..38];
  }
}
