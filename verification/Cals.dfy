/** Common Application Language messages: encoder, decoder and the CAL stream of a frame. */
module Cals {
  import opened Bytes
  import opened Wrappers
  import opened StatusReports

  datatype Cal =
    | Identify(attribute: Byte)
    | Recall(param: Byte, count: Byte)
    | Reply(parameter: Byte, data: seq<Byte>)
    | ExtendedStatus(externallyInitiated: bool, childApplication: Byte, blockStart: Byte, report: StatusReport)

  const CAL_RECALL: Byte := 0x1A
  const CAL_IDENTIFY: Byte := 0x21

  /** Reply data is clipped to 30 bytes; the length field of an extended status wraps in its five bits. */
  function Encode(cal: Cal): (r: seq<Byte>)
    ensures |r| >= 2
  {
    match cal
    case Identify(attribute) => [CAL_IDENTIFY, attribute]
    case Recall(param, count) => [CAL_RECALL, param, count]
    case Reply(parameter, data) =>
      var clipped := if |data| > 0x1E then data[..0x1E] else data;
      [0x80 + |clipped| + 1, parameter] + clipped
    case ExtendedStatus(ext, child, block, report) =>
      var rep := StatusReports.Encode(report);
      [0xE0 + (|rep| + 3) % 32, Coding(ext, report), child, block] + rep
  }

  function Coding(externallyInitiated: bool, report: StatusReport): Byte {
    (if externallyInitiated then 0x40 else 0) + BlockType(report)
  }

  /** Decodes one CAL from the front; returns it with the number of bytes it took. */
  function DecodeOne(data: seq<Byte>): (r: Result<(Cal, nat)>)
    ensures r.Ok? ==> 2 <= r.value.1 <= |data|
  {
    if data == [] then Err
    else
      var cmd := data[0];
      if cmd / 32 == 4 then
        var calEnd := cmd % 32 + 1;
        if |data| < calEnd || calEnd < 2 then Err
        else Ok((Reply(data[1], data[2..calEnd]), calEnd))
      else if cmd / 32 == 6 then Err
      else if cmd / 32 == 7 then
        var calEnd := cmd % 32 + 1;
        if |data| < calEnd || calEnd < 4 then Err
        else
          var report :- DecodeReport(data[1] % 8, data[4..calEnd]);
          Ok((ExtendedStatus(data[1] / 64 % 2 == 1, data[2], data[3], report), calEnd))
      else if cmd == CAL_IDENTIFY then
        if |data| < 2 then Err else Ok((Identify(data[1]), 2))
      else if cmd == CAL_RECALL then
        if |data| < 3 then Err else Ok((Recall(data[1], data[2]), 3))
      else Err
  }

  function DecodeReport(blockType: int, payload: seq<Byte>): Result<StatusReport> {
    if blockType == 0 then Ok(Binary(Unpack(payload)))
    else if blockType == 7 then DecodeLevel(payload)
    else Err
  }

  /** A CAL the length fields can describe: at most 30 data bytes, at most 28 report bytes, whole bytes of states. */
  predicate WellFormed(cal: Cal) {
    match cal
    case Reply(_, data) => |data| <= 30
    case ExtendedStatus(_, _, _, Binary(states)) => |states| % 4 == 0 && |states| <= 112
    case ExtendedStatus(_, _, _, Level(levels)) => |levels| <= 14
    case _ => true
  }

  /** Decoding reads back exactly the CAL that was written and stops right after it. */
  lemma OneRoundTrip(cal: Cal, tail: seq<Byte>)
    requires WellFormed(cal)
    ensures DecodeOne(Encode(cal) + tail) == Ok((cal, |Encode(cal)|))
  {
    match cal {
      case Reply(parameter, data) =>
        var e := [0x80 + |data| + 1, parameter] + data;
        assert Encode(cal) == e;
        assert (e + tail)[2..|e|] == data;
      case ExtendedStatus(_, _, _, _) => StatusRoundTrip(cal, tail);
      case Identify(_) =>
      case Recall(_, _) =>
    }
  }

  lemma StatusRoundTrip(cal: Cal, tail: seq<Byte>)
    requires cal.ExtendedStatus? && WellFormed(cal)
    ensures DecodeOne(Encode(cal) + tail) == Ok((cal, |Encode(cal)|))
  {
    var coding := Coding(cal.externallyInitiated, cal.report);
    ReportRoundTrip(cal.report);
    CodingFields(cal.externallyInitiated, cal.report);
    StatusFront(coding, cal.childApplication, cal.blockStart, StatusReports.Encode(cal.report), cal.report, tail);
  }

  lemma CodingFields(ext: bool, report: StatusReport)
    ensures Coding(ext, report) % 8 == BlockType(report) && (Coding(ext, report) / 64 % 2 == 1) == ext
  {}

  lemma StatusFront(coding: Byte, child: Byte, block: Byte, rep: seq<Byte>, report: StatusReport, tail: seq<Byte>)
    requires |rep| <= 28 && DecodeReport(coding % 8, rep) == Ok(report)
    ensures DecodeOne([0xE0 + (|rep| + 3) % 32, coding, child, block] + rep + tail)
         == Ok((ExtendedStatus(coding / 64 % 2 == 1, child, block, report), |rep| + 4))
  {
    var all := [0xE0 + (|rep| + 3) % 32, coding, child, block] + rep + tail;
    assert all[4..|rep| + 4] == rep;
    assert all[0] / 32 == 7 && all[0] % 32 + 1 == |rep| + 4;
  }

  lemma ReportRoundTrip(report: StatusReport)
    requires report.Binary? ==> |report.states| % 4 == 0
    ensures DecodeReport(BlockType(report), StatusReports.Encode(report)) == Ok(report)
    ensures |StatusReports.Encode(report)| == if report.Binary? then |report.states| / 4 else 2 * |report.levels|
  {
    match report {
      case Binary(states) =>
        BinaryRoundTrip(states);
        assert Pad(states) == states;
      case Level(levels) => LevelsRoundTrip(levels);
    }
  }

  /** The converse of `OneRoundTrip`: a CAL outside these limits never comes back as it was sent. */
  lemma OneRoundTripOnlyIfWellFormed(cal: Cal, tail: seq<Byte>)
    requires DecodeOne(Encode(cal) + tail).Ok?
    requires DecodeOne(Encode(cal) + tail).value.0 == cal
    ensures WellFormed(cal)
  {
    match cal {
      case ExtendedStatus(_, _, _, report) =>
        var length := (|StatusReports.Encode(report)| + 3) % 32 + 1;
        var payload := (Encode(cal) + tail)[4..length];
        assert DecodeReport(BlockType(report), payload) == Ok(report);
      case _ =>
    }
  }

  /** What is read spells the bytes it was read from. Of an extended status they say by bit 6 of its second byte
      whether it was asked for, by the low three bits what it holds, states or a level for each pair of bytes, and its
      other bits say nothing. */
  lemma DecodedSpells(data: seq<Byte>)
    requires DecodeOne(data).Ok?
    ensures var (cal, n) := DecodeOne(data).value;
            match cal
            case ExtendedStatus(ext, child, block, report) =>
              && 4 <= n <= |data| && data[0] == 0xE0 + (n - 1) && child == data[2] && block == data[3]
              && ext == (data[1] / 64 % 2 == 1) && BlockType(report) == data[1] % 8
              && (report.Binary? ==> StatusReports.Encode(report) == data[4..n])
              && (report.Level? ==> 2 * |report.levels| == n - 4)
              && (report.Level? ==>
                    forall i | 0 <= i < |report.levels| ::
                      report.levels[i] == ManchesterDecode(data[4 + 2 * i], data[5 + 2 * i]))
            case _ => Encode(cal) == data[..n]
  {
    var (cal, n) := DecodeOne(data).value;
    if cal.ExtendedStatus? {
      var payload := data[4..n];
      assert DecodeReport(data[1] % 8, payload) == Ok(cal.report);
      assert forall k | 0 <= k < |payload| :: payload[k] == data[4 + k];
      if cal.report.Binary? {
        PackInvertsUnpack(payload);
        BinaryRoundTrip(cal.report.states);
      }
    }
  }

  // ---- CAL streams ----------------------------------------------------------------------

  function EncodeAll(cals: seq<Cal>): seq<Byte> {
    if cals == [] then [] else Encode(cals[0]) + EncodeAll(cals[1..])
  }

  function DecodeAll(data: seq<Byte>): Result<seq<Cal>> {
    if data == [] then Ok([])
    else
      var one :- DecodeOne(data);
      var rest :- DecodeAll(data[one.1..]);
      Ok([one.0] + rest)
  }

  lemma FirstIsDecoded(data: seq<Byte>, c: Cal, n: nat, rest: seq<Cal>)
    requires data != [] && DecodeOne(data) == Ok((c, n)) && DecodeAll(data[n..]) == Ok(rest)
    ensures DecodeAll(data) == Ok([c] + rest)
  {}

  lemma {:induction false} StreamRoundTrip(cals: seq<Cal>)
    requires forall c | c in cals :: WellFormed(c)
    ensures DecodeAll(EncodeAll(cals)) == Ok(cals)
  {
    if cals != [] {
      var rest := EncodeAll(cals[1..]);
      OneRoundTrip(cals[0], rest);
      StreamRoundTrip(cals[1..]);
      assert EncodeAll(cals)[|Encode(cals[0])|..] == rest;
      FirstIsDecoded(EncodeAll(cals), cals[0], |Encode(cals[0])|, cals[1..]);
      assert cals == [cals[0]] + cals[1..];
    }
  }

  /** A list of CALs survives the wire exactly when each of them is within the limits. */
  lemma {:induction false} StreamRoundTripIff(cals: seq<Cal>)
    ensures DecodeAll(EncodeAll(cals)) == Ok(cals) <==> forall c | c in cals :: WellFormed(c)
  {
    if forall c | c in cals :: WellFormed(c) {
      StreamRoundTrip(cals);
    }
    if DecodeAll(EncodeAll(cals)) == Ok(cals) && cals != [] {
      var rest := EncodeAll(cals[1..]);
      OneRoundTripOnlyIfWellFormed(cals[0], rest);
      OneRoundTrip(cals[0], rest);
      assert EncodeAll(cals)[|Encode(cals[0])|..] == rest;
      assert cals == [cals[0]] + cals[1..];
      StreamRoundTripIff(cals[1..]);
    }
  }

  /** The decoding loop: narrows a slice and collects the CALs until the slice is empty. */
  method CollectCals(data: seq<Byte>) returns (r: Result<seq<Cal>>)
    ensures r == DecodeAll(data)
  {
    var cals: seq<Cal> := [];
    var calData := data;
    while calData != []
      invariant DecodeAll(data).Ok? == DecodeAll(calData).Ok?
      invariant DecodeAll(data).Ok? ==> DecodeAll(data).value == cals + DecodeAll(calData).value
      decreases |calData|
    {
      var one := DecodeOne(calData);
      if one.Err? {
        return Err;
      }
      calData := calData[one.value.1..];
      cals := cals + [one.value.0];
    }
    assert cals + [] == cals;
    r := Ok(cals);
  }

  /** The encoding loop: appends each CAL to the bytes written so far. */
  method AppendCals(prefix: seq<Byte>, cals: seq<Cal>) returns (p: seq<Byte>)
    ensures p == prefix + EncodeAll(cals)
  {
    p := prefix;
    for i := 0 to |cals|
      invariant p + EncodeAll(cals[i..]) == prefix + EncodeAll(cals)
    {
      assert cals[i..][1..] == cals[i + 1..];
      p := p + Encode(cals[i]);
    }
  }
}
