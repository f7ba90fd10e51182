/** Smart Application Language messages: the payload of a point-to-multipoint frame. */
module Sals {
  import opened Bytes
  import opened Wrappers

  /** Durations are seconds; temperatures are degrees Celsius, sent in quarter degrees. */
  datatype Sal =
    | LightingOn(application: Byte, group: Byte)
    | LightingOff(application: Byte, group: Byte)
    | LightingTerminateRamp(application: Byte, group: Byte)
    | LightingRamp(application: Byte, group: Byte, duration: nat, level: Byte)
    | ClockUpdateTime(hour: Byte, minute: Byte, second: Byte)
    | ClockUpdateDate(year: Year, month: Byte, day: Byte)
    | ClockRequest
    | TemperatureBroadcast(group: Byte, temperature: real)
    | EnableSetNetworkVariable(variable: Byte, value: Byte)
    | StatusRequest(levelRequest: bool, group: Byte, childApplication: Byte)

  type Year = y: int | 0 <= y < 0x10000

  const APP_TEMPERATURE: Byte := 0x19
  const APP_ENABLE: Byte := 0xCB
  const APP_CLOCK: Byte := 0xDF
  const APP_STATUS_REQUEST: Byte := 0xFF
  const LIGHT_ON: Byte := 0x79
  const LIGHT_OFF: Byte := 0x01
  const LIGHT_TERMINATE_RAMP: Byte := 0x09

  predicate IsLightingApp(app: int) {
    0x30 <= app <= 0x5F
  }

  function ApplicationOf(sal: Sal): Byte {
    match sal
    case LightingOn(app, _) => app
    case LightingOff(app, _) => app
    case LightingTerminateRamp(app, _) => app
    case LightingRamp(app, _, _, _) => app
    case ClockUpdateTime(_, _, _) => APP_CLOCK
    case ClockUpdateDate(_, _, _) => APP_CLOCK
    case ClockRequest => APP_CLOCK
    case TemperatureBroadcast(_, _) => APP_TEMPERATURE
    case EnableSetNetworkVariable(_, _) => APP_ENABLE
    case StatusRequest(_, _, _) => APP_STATUS_REQUEST
  }

  predicate IsLighting(sal: Sal) {
    sal.LightingOn? || sal.LightingOff? || sal.LightingTerminateRamp? || sal.LightingRamp?
  }

  // ---- Ramp rates -----------------------------------------------------------------------

  /** Command code and duration, in increasing duration. */
  const RAMP_RATES: seq<(Byte, nat)> :=
    [(0x02, 0), (0x0A, 4), (0x12, 8), (0x1A, 12), (0x22, 20), (0x2A, 30), (0x32, 40), (0x3A, 60),
     (0x42, 90), (0x4A, 120), (0x52, 180), (0x5A, 300), (0x62, 420), (0x6A, 600), (0x72, 900), (0x7A, 1020)]

  type RampTable = t: seq<(Byte, nat)> | |t| == 16 witness seq(16, i => (0, 0))

  /** Codes go up by 8 from 2, durations strictly. */
  predicate Regular(table: RampTable) {
    && (forall i | 0 <= i < 16 :: table[i].0 == 8 * i + 2)
    && (forall i, j | 0 <= i < j < 16 :: table[i].1 < table[j].1)
  }

  lemma RampRatesAreRegular()
    ensures Regular(RAMP_RATES)
  {
    var t := RAMP_RATES;
    assert forall i | 0 <= i < 15 :: t[i].1 < t[i + 1].1;
    forall i, j | 0 <= i < j < 16
      ensures t[i].1 < t[j].1
    {
      Increasing(seq(16, k requires 0 <= k < 16 => t[k].1), i, j);
    }
  }

  lemma {:induction false} Increasing(s: seq<nat>, i: nat, j: nat)
    requires i < j < |s| && forall k | 0 <= k < |s| - 1 :: s[k] < s[k + 1]
    ensures s[i] < s[j]
  {
    if i + 1 < j {
      Increasing(s, i, j - 1);
    }
  }

  /** The code of the shortest tabulated duration that is at least `seconds`; beyond the table, the slowest. */
  function DurationToRate(seconds: nat): Byte {
    Snap(RAMP_RATES, seconds, 0)
  }

  function Snap(table: RampTable, seconds: nat, from: nat): Byte
    requires from <= 16
    decreases 16 - from
  {
    if from == 16 then 0x7A
    else if seconds <= table[from].1 then table[from].0
    else Snap(table, seconds, from + 1)
  }

  function RateToDuration(rate: Byte): Option<nat> {
    LookUp(RAMP_RATES, rate, 0)
  }

  function LookUp(table: RampTable, rate: Byte, from: nat): (r: Option<nat>)
    requires from <= 16
    ensures r.Some? ==> exists i | from <= i < 16 :: table[i] == (rate, r.value)
    ensures r.None? ==> forall i | from <= i < 16 :: table[i].0 != rate
    decreases 16 - from
  {
    if from == 16 then None
    else if table[from].0 == rate then Some(table[from].1)
    else LookUp(table, rate, from + 1)
  }

  predicate OnTable(seconds: nat) {
    Tabulated(RAMP_RATES, seconds)
  }

  predicate Tabulated(table: RampTable, seconds: nat) {
    exists i | 0 <= i < 16 :: table[i].1 == seconds
  }

  /** A rate code is a tabulated one exactly when it is 2 modulo 8 and at most 0x7A. */
  lemma RateCodes(rate: Byte)
    ensures RateToDuration(rate).Some? <==> rate % 8 == 2 && rate <= 0x7A
  {
    RampRatesAreRegular();
    RegularCodes(RAMP_RATES, rate);
  }

  lemma RegularCodes(table: RampTable, rate: Byte)
    requires Regular(table)
    ensures LookUp(table, rate, 0).Some? <==> rate % 8 == 2 && rate <= 0x7A
  {
    if rate % 8 == 2 && rate <= 0x7A {
      LookUpFinds(table, rate / 8, 0);
      assert table[rate / 8].0 == 8 * (rate / 8) + 2;
    }
    if LookUp(table, rate, 0).Some? {
      var i :| 0 <= i < 16 && table[i] == (rate, LookUp(table, rate, 0).value);
      assert rate == 8 * i + 2;
    }
  }

  /** Snapping a duration to its rate code loses nothing exactly when the duration is tabulated. */
  lemma RampDurationRoundTrip(seconds: nat)
    ensures RateToDuration(DurationToRate(seconds)).Some?
    ensures RateToDuration(DurationToRate(seconds)) == Some(seconds) <==> OnTable(seconds)
  {
    RampRatesAreRegular();
    SnapRoundTrip(RAMP_RATES, seconds);
  }

  lemma SnapRoundTrip(table: RampTable, seconds: nat)
    requires Regular(table)
    ensures LookUp(table, Snap(table, seconds, 0), 0).Some?
    ensures LookUp(table, Snap(table, seconds, 0), 0) == Some(seconds) <==> Tabulated(table, seconds)
  {
    var i := SnapIsInTable(table, seconds, 0);
    LookUpFinds(table, i, 0);
    if Tabulated(table, seconds) {
      var k :| 0 <= k < 16 && table[k].1 == seconds;
      SnapFindsTabulated(table, k, 0);
      assert table[i].0 == 8 * i + 2 && table[k].0 == 8 * k + 2;
    }
  }

  lemma {:induction false} LookUpFinds(table: RampTable, i: nat, from: nat)
    requires Regular(table) && from <= i < 16
    ensures LookUp(table, table[i].0, from) == Some(table[i].1)
    decreases i - from
  {
    if from < i {
      assert table[from].0 == 8 * from + 2 && table[i].0 == 8 * i + 2;
      LookUpFinds(table, i, from + 1);
    }
  }

  lemma {:induction false} SnapIsInTable(table: RampTable, seconds: nat, from: nat) returns (i: nat)
    requires Regular(table) && from <= 16
    ensures i < 16 && table[i].0 == Snap(table, seconds, from)
    decreases 16 - from
  {
    if from == 16 {
      i := 15;
    } else if seconds <= table[from].1 {
      i := from;
    } else {
      i := SnapIsInTable(table, seconds, from + 1);
    }
  }

  lemma {:induction false} SnapFindsTabulated(table: RampTable, i: nat, from: nat)
    requires Regular(table) && from <= i < 16
    ensures Snap(table, table[i].1, from) == table[i].0
    decreases i - from
  {
    if from < i {
      SnapFindsTabulated(table, i, from + 1);
    }
  }

  /** A duration that is not tabulated is rounded up to the next that is; beyond seventeen minutes to seventeen. */
  lemma RampIsRoundedUp(seconds: nat)
    ensures RateToDuration(DurationToRate(seconds)).Some?
    ensures var d := RateToDuration(DurationToRate(seconds)).value;
            && OnTable(d)
            && (seconds <= 1020 ==> seconds <= d)
            && (seconds > 1020 ==> d == 1020)
            && (forall other: nat | OnTable(other) && seconds <= other :: d <= other)
  {
    RampRatesAreRegular();
    var i := SnapIsLeast(RAMP_RATES, seconds, 0);
    LookUpFinds(RAMP_RATES, i, 0);
    forall other: nat | OnTable(other) && seconds <= other
      ensures RAMP_RATES[i].1 <= other
    {
      var k :| 0 <= k < 16 && RAMP_RATES[k].1 == other;
    }
  }

  lemma {:induction false} SnapIsLeast(table: RampTable, seconds: nat, from: nat) returns (i: nat)
    requires Regular(table) && from <= 16 && forall k | 0 <= k < from :: table[k].1 < seconds
    ensures i < 16 && table[i].0 == Snap(table, seconds, from)
    ensures if seconds <= table[15].1 then seconds <= table[i].1 else i == 15
    ensures forall k | 0 <= k < 16 && seconds <= table[k].1 :: i <= k && table[i].1 <= table[k].1
    decreases 16 - from
  {
    if from == 16 {
      i := 15;
      assert table[15].0 == 8 * 15 + 2;
    } else if seconds <= table[from].1 {
      i := from;
    } else {
      i := SnapIsLeast(table, seconds, from + 1);
    }
  }

  // ---- Dates ----------------------------------------------------------------------------

  predicate IsLeap(year: int) {
    year % 4 == 0 && (year % 100 != 0 || year % 400 == 0)
  }

  function DaysInMonth(year: int, month: int): int
    requires 1 <= month <= 12
  {
    if month == 2 then (if IsLeap(year) then 29 else 28)
    else if month in {4, 6, 9, 11} then 30
    else 31
  }

  predicate IsDate(year: int, month: int, day: int) {
    1 <= month <= 12 && 1 <= day <= DaysInMonth(year, month)
  }

  function DaysBeforeMonth(year: int, month: int): int
    requires 1 <= month <= 12
    decreases month
  {
    if month == 1 then 0 else DaysBeforeMonth(year, month - 1) + DaysInMonth(year, month - 1)
  }

  function DaysBeforeYear(year: int): int {
    var y := year - 1;
    365 * y + y / 4 - y / 100 + y / 400
  }

  /** Days since 1 January of year 1. */
  function DayNumber(year: int, month: int, day: int): int
    requires 1 <= month <= 12
  {
    DaysBeforeYear(year) + DaysBeforeMonth(year, month) + day - 1
  }

  /** Day of the week, Monday 0; 1 January of year 1 is a Monday. */
  function Weekday(year: int, month: int, day: int): (r: Byte)
    requires IsDate(year, month, day)
    ensures r < 7
  {
    DayNumber(year, month, day) % 7
  }

  /** The day after, by the rules of the Gregorian calendar. */
  function NextDay(year: int, month: int, day: int): (int, int, int)
    requires IsDate(year, month, day)
  {
    var leap := year % 4 == 0 && (year % 100 != 0 || year % 400 == 0);
    var last := if month == 2 then (if leap then 29 else 28)
                else if month == 4 || month == 6 || month == 9 || month == 11 then 30 else 31;
    if day < last then (year, month, day + 1) else if month < 12 then (year, month + 1, 1) else (year + 1, 1, 1)
  }

  lemma DaysInYear(year: int)
    ensures DaysBeforeMonth(year, 12) + 31 == if IsLeap(year) then 366 else 365
  {
    assert DaysBeforeMonth(year, 3) == 31 + DaysInMonth(year, 2);
    assert DaysBeforeMonth(year, 6) == DaysBeforeMonth(year, 3) + 92;
    assert DaysBeforeMonth(year, 9) == DaysBeforeMonth(year, 6) + 92;
    assert DaysBeforeMonth(year, 12) == DaysBeforeMonth(year, 9) + 91;
  }

  /** Leap years so far grow by one exactly after a leap year. */
  lemma LeapsSoFar(year: int)
    ensures year / 4 - year / 100 + year / 400
         == (year - 1) / 4 - (year - 1) / 100 + (year - 1) / 400 + if IsLeap(year) then 1 else 0
  {
    StepOfQuotient(year, 4);
    StepOfQuotient(year, 100);
    StepOfQuotient(year, 400);
  }

  lemma StepOfQuotient(n: int, m: int)
    requires m in {4, 100, 400}
    ensures n / m == (n - 1) / m + if n % m == 0 then 1 else 0
  {}

  lemma YearsFollow(year: int)
    ensures DaysBeforeYear(year + 1) == DaysBeforeYear(year) + if IsLeap(year) then 366 else 365
  {
    LeapsSoFar(year);
  }

  lemma DayNumbersFollow(year: int, month: int, day: int)
    requires IsDate(year, month, day)
    ensures var (y, m, d) := NextDay(year, month, day);
            IsDate(y, m, d) && DayNumber(y, m, d) == DayNumber(year, month, day) + 1
  {
    if day == DaysInMonth(year, month) && month == 12 {
      DaysInYear(year);
      YearsFollow(year);
    }
  }

  lemma NextModSeven(n: int)
    ensures (n + 1) % 7 == (n % 7 + 1) % 7
  {}

  /** Weekdays follow each other, day after day, and 1 January 2000 was a Saturday; so every one is right. */
  lemma WeekdaysFollow(year: int, month: int, day: int)
    requires IsDate(year, month, day)
    ensures var (y, m, d) := NextDay(year, month, day);
            IsDate(y, m, d) && Weekday(y, m, d) == (Weekday(year, month, day) + 1) % 7
    ensures Weekday(2000, 1, 1) == 5
  {
    DayNumbersFollow(year, month, day);
    NextModSeven(DayNumber(year, month, day));
  }

  // ---- Encoding -------------------------------------------------------------------------

  function Encode(sal: Sal): Result<seq<Byte>> {
    match sal
    case LightingOn(_, group) => Ok([LIGHT_ON, group])
    case LightingOff(_, group) => Ok([LIGHT_OFF, group])
    case LightingTerminateRamp(_, group) => Ok([LIGHT_TERMINATE_RAMP, group])
    case LightingRamp(_, group, duration, level) => Ok([DurationToRate(duration), group, level])
    case ClockUpdateTime(hour, minute, second) => Ok([0x0D, 0x01, hour, minute, second, 0xFF])
    case ClockUpdateDate(year, month, day) =>
      if !IsDate(year, month, day) then Err
      else Ok([0x0E, 0x02, year / 256, year % 256, month, day, Weekday(year, month, day)])
    case ClockRequest => Ok([0x11, 0x03])
    case TemperatureBroadcast(group, temperature) =>
      if !(0.0 <= temperature <= 63.75) then Err
      else
        var quarters: Byte := (temperature * 4.0).Floor;
        Ok([0x02, group, quarters])
    case EnableSetNetworkVariable(variable, value) => Ok([0x02, variable, value])
    case StatusRequest(levelRequest, group, child) =>
      var block := group - group % 32;
      Ok(if levelRequest then [0x73, 0x07, child, block] else [0x7A, child, block])
  }

  function EncodeAll(sals: seq<Sal>): Result<seq<Byte>> {
    if sals == [] then Ok([])
    else
      var one :- Encode(sals[0]);
      var rest :- EncodeAll(sals[1..]);
      Ok(one + rest)
  }

  /** The encoding loop: appends each SAL, failing with the first that cannot be encoded. */
  method AppendSals(prefix: seq<Byte>, sals: seq<Sal>) returns (r: Result<seq<Byte>>)
    ensures r.Ok? == EncodeAll(sals).Ok?
    ensures r.Ok? ==> r.value == prefix + EncodeAll(sals).value
  {
    var p := prefix;
    for i := 0 to |sals|
      invariant EncodeAll(sals).Ok? == EncodeAll(sals[i..]).Ok?
      invariant EncodeAll(sals).Ok? ==> p + EncodeAll(sals[i..]).value == prefix + EncodeAll(sals).value
    {
      assert sals[i..][1..] == sals[i + 1..];
      var one := Encode(sals[i]);
      if one.Err? {
        return Err;
      }
      p := p + one.value;
    }
    r := Ok(p);
  }

  // ---- Decoding -------------------------------------------------------------------------

  /** Lighting: a malformed tail ends the list quietly. */
  function DecodeLighting(app: Byte, data: seq<Byte>): seq<Sal> {
    if |data| < 2 then []
    else if data[0] == LIGHT_ON then [LightingOn(app, data[1])] + DecodeLighting(app, data[2..])
    else if data[0] == LIGHT_OFF then [LightingOff(app, data[1])] + DecodeLighting(app, data[2..])
    else if data[0] == LIGHT_TERMINATE_RAMP then [LightingTerminateRamp(app, data[1])] + DecodeLighting(app, data[2..])
    else match RateToDuration(data[0])
      case None => []
      case Some(duration) =>
        if |data| < 3 then []
        else [LightingRamp(app, data[1], duration, data[2])] + DecodeLighting(app, data[3..])
  }

  function Skip(data: seq<Byte>, n: nat): (r: seq<Byte>)
    ensures |r| <= |data|
  {
    if n <= |data| then data[n..] else []
  }

  /** The value bytes of a clock update, after the variable number. */
  function ClockValue(data: seq<Byte>, length: nat): seq<Byte> {
    var end := if length <= |data| then length else |data|;
    if end > 1 then data[1..end] else []
  }

  /** A clock variable, time 1 or date 2: of another length it is ignored, with a bad value it is an error. */
  function ClockUpdate(variable: Byte, length: nat, val: seq<Byte>): Result<Option<Sal>> {
    if variable == 0x02 then
      if length != 6 then Ok(None)
      else if |val| != 5 then Err
      else
        var year: int := 256 * (val[0] as int) + val[1];
        if !(1 <= year <= 9999) || !IsDate(year, val[2], val[3]) then Err
        else Ok(Some(ClockUpdateDate(year, val[2], val[3])))
    else if length != 5 then Ok(None)
    else if |val| != 4 || val[0] > 23 || val[1] > 59 || val[2] > 59 then Err
    else Ok(Some(ClockUpdateTime(val[0], val[1], val[2])))
  }

  function Prepend(sal: Sal, rest: Result<seq<Sal>>): Result<seq<Sal>> {
    var more :- rest;
    Ok([sal] + more)
  }

  /** Clock: an unknown variable is skipped twice over, as the original does. */
  function DecodeClock(data: seq<Byte>): Result<seq<Sal>>
    decreases |data|
  {
    if data == [] then Ok([])
    else
      var cmd, rest := data[0], data[1..];
      if cmd >= 32 then Ok([])
      else if cmd / 8 == 1 then
        if rest == [] then Err
        else
          var length := cmd % 8;
          var after := Skip(rest, length);
          if rest[0] != 0x01 && rest[0] != 0x02 then DecodeClock(Skip(after, length))
          else
            var update :- ClockUpdate(rest[0], length, ClockValue(rest, length));
            match update
            case None => DecodeClock(after)
            case Some(sal) => Prepend(sal, DecodeClock(after))
      else if cmd == 0x11 then
        if rest == [] then Err
        else if rest[0] != 0x03 then DecodeClock(rest[1..])
        else Prepend(ClockRequest, DecodeClock(rest[1..]))
      else Ok([])
  }

  function DecodeTemperature(data: seq<Byte>): seq<Sal> {
    if |data| < 3 || data[0] >= 0x80 || data[0] % 8 != 2 then []
    else [TemperatureBroadcast(data[1], data[2] as real / 4.0)] + DecodeTemperature(data[3..])
  }

  function DecodeEnable(data: seq<Byte>): seq<Sal> {
    if |data| < 3 || data[0] >= 0x80 || data[0] % 8 != 2 then []
    else [EnableSetNetworkVariable(data[1], data[2])] + DecodeEnable(data[3..])
  }

  /** Status requests: anything unexpected is an error. */
  function DecodeStatusRequests(data: seq<Byte>): Result<seq<Sal>> {
    if data == [] then Ok([])
    else
      var binary := data[0] == 0x7A || data[0] == 0xFA;
      var level := !binary && |data| >= 2 && data[0] == 0x73 && data[1] == 0x07;
      if !binary && !level then Err
      else
        var args := data[if binary then 1 else 2..];
        if |args| < 2 || args[1] % 32 != 0 then Err
        else
          var more :- DecodeStatusRequests(args[2..]);
          Ok([StatusRequest(level, args[1], args[0])] + more)
  }

  /** Dispatch on the application byte; unregistered applications are errors. */
  function DecodeAll(app: Byte, data: seq<Byte>): Result<seq<Sal>> {
    if IsLightingApp(app) then Ok(DecodeLighting(app, data))
    else if app == APP_CLOCK then DecodeClock(data)
    else if app == APP_TEMPERATURE then Ok(DecodeTemperature(data))
    else if app == APP_ENABLE then Ok(DecodeEnable(data))
    else if app == APP_STATUS_REQUEST then DecodeStatusRequests(data)
    else Err
  }

  // ---- Round trips ----------------------------------------------------------------------

  /** What the wire format can carry without loss. */
  predicate Representable(sal: Sal) {
    match sal
    case LightingOn(app, _) => IsLightingApp(app)
    case LightingOff(app, _) => IsLightingApp(app)
    case LightingTerminateRamp(app, _) => IsLightingApp(app)
    case LightingRamp(app, _, duration, _) => IsLightingApp(app) && OnTable(duration)
    case ClockUpdateTime(hour, minute, second) => hour <= 23 && minute <= 59 && second <= 59
    case ClockUpdateDate(year, month, day) => 1 <= year <= 9999 && IsDate(year, month, day)
    case ClockRequest => true
    case TemperatureBroadcast(_, temperature) =>
      0.0 <= temperature <= 63.75 && (temperature * 4.0).Floor as real == temperature * 4.0
    case EnableSetNetworkVariable(_, _) => true
    case StatusRequest(_, group, _) => group % 32 == 0
  }

  /** One representable SAL is read off the front of the stream and the rest is decoded as it stands. */
  lemma OneRoundTrip(sal: Sal, tail: seq<Byte>)
    requires Representable(sal)
    ensures Encode(sal).Ok?
    ensures DecodeAll(ApplicationOf(sal), Encode(sal).value + tail).Ok? == DecodeAll(ApplicationOf(sal), tail).Ok?
    ensures DecodeAll(ApplicationOf(sal), tail).Ok? ==>
              DecodeAll(ApplicationOf(sal), Encode(sal).value + tail).value
              == [sal] + DecodeAll(ApplicationOf(sal), tail).value
  {
    match sal {
      case ClockUpdateTime(_, _, _) => ClockRoundTrip(sal, tail);
      case ClockUpdateDate(_, _, _) => ClockRoundTrip(sal, tail);
      case ClockRequest => ClockRoundTrip(sal, tail);
      case TemperatureBroadcast(_, temperature) =>
        var e := Encode(sal).value;
        assert (e + tail)[3..] == tail;
        assert (e[2] as real) / 4.0 == temperature;
      case EnableSetNetworkVariable(_, _) =>
        assert (Encode(sal).value + tail)[3..] == tail;
      case StatusRequest(levelRequest, _, _) =>
        assert (Encode(sal).value + tail)[if levelRequest then 2 else 1..][2..] == tail;
      case _ => LightingRoundTrip(sal, tail);
    }
  }

  lemma LightingRoundTrip(sal: Sal, tail: seq<Byte>)
    requires IsLighting(sal) && Representable(sal)
    ensures Encode(sal).Ok?
    ensures DecodeLighting(sal.application, Encode(sal).value + tail) == [sal] + DecodeLighting(sal.application, tail)
  {
    match sal {
      case LightingRamp(app, group, duration, level) =>
        RampDurationRoundTrip(duration);
        RampFront(app, DurationToRate(duration), group, duration, level, tail);
      case _ =>
        assert (Encode(sal).value + tail)[2..] == tail;
    }
  }

  lemma RampFront(app: Byte, rate: Byte, group: Byte, duration: nat, level: Byte, tail: seq<Byte>)
    requires RateToDuration(rate) == Some(duration)
    ensures DecodeLighting(app, [rate, group, level] + tail)
         == [LightingRamp(app, group, duration, level)] + DecodeLighting(app, tail)
  {
    RateCodes(rate);
    assert ([rate, group, level] + tail)[3..] == tail;
  }

  lemma ClockRoundTrip(sal: Sal, tail: seq<Byte>)
    requires sal.ClockUpdateTime? || sal.ClockUpdateDate? || sal.ClockRequest?
    requires Representable(sal)
    ensures Encode(sal).Ok?
    ensures DecodeClock(Encode(sal).value + tail).Ok? == DecodeClock(tail).Ok?
    ensures DecodeClock(tail).Ok? ==>
              DecodeClock(Encode(sal).value + tail).value == [sal] + DecodeClock(tail).value
  {
    match sal {
      case ClockUpdateTime(hour, minute, second) => TimeFront(hour, minute, second, tail);
      case ClockUpdateDate(year, month, day) =>
        DateFront(year / 256, year % 256, month, day, Weekday(year, month, day), tail);
      case ClockRequest => RequestFront(tail);
    }
  }

  lemma TimeFront(hour: Byte, minute: Byte, second: Byte, tail: seq<Byte>)
    requires hour <= 23 && minute <= 59 && second <= 59
    ensures DecodeClock([0x0D, 0x01, hour, minute, second, 0xFF] + tail)
         == Prepend(ClockUpdateTime(hour, minute, second), DecodeClock(tail))
  {
    var rest := [0x01, hour, minute, second, 0xFF] + tail;
    assert ([0x0D, 0x01, hour, minute, second, 0xFF] + tail)[1..] == rest;
    assert Skip(rest, 5) == tail;
    assert ClockValue(rest, 5) == [hour, minute, second, 0xFF];
  }

  lemma DateFront(hi: Byte, lo: Byte, month: Byte, day: Byte, weekday: Byte, tail: seq<Byte>)
    requires 1 <= 256 * hi + lo <= 9999 && IsDate(256 * hi + lo, month, day)
    ensures DecodeClock([0x0E, 0x02, hi, lo, month, day, weekday] + tail)
         == Prepend(ClockUpdateDate(256 * hi + lo, month, day), DecodeClock(tail))
  {
    var value := [hi, lo, month, day, weekday];
    assert ClockUpdate(0x02, 6, value) == Ok(Some(ClockUpdateDate(256 * hi + lo, month, day)));
    var rest := [0x02] + value + tail;
    assert ([0x0E, 0x02, hi, lo, month, day, weekday] + tail)[1..] == rest;
    assert Skip(rest, 6) == tail;
    assert ClockValue(rest, 6) == value;
  }

  lemma RequestFront(tail: seq<Byte>)
    ensures DecodeClock([0x11, 0x03] + tail) == Prepend(ClockRequest, DecodeClock(tail))
  {
    assert ([0x11, 0x03] + tail)[1..] == [0x03] + tail && ([0x03] + tail)[1..] == tail;
  }

  lemma {:induction false} StreamRoundTrip(app: Byte, sals: seq<Sal>)
    requires DecodeAll(app, []).Ok?
    requires forall s | s in sals :: Representable(s) && ApplicationOf(s) == app
    ensures EncodeAll(sals).Ok?
    ensures DecodeAll(app, EncodeAll(sals).value) == Ok(sals)
  {
    if sals != [] {
      StreamRoundTrip(app, sals[1..]);
      OneRoundTrip(sals[0], EncodeAll(sals[1..]).value);
      assert sals == [sals[0]] + sals[1..];
    }
  }

  /** What cannot be encoded at all, and what is sent where the wire has no room for a message as it is: a temperature
      rounded down to a quarter degree, and the block of a status request's group. */
  lemma EncodingLimits(sal: Sal)
    ensures Encode(sal).Err? <==>
            || (sal.ClockUpdateDate? && !IsDate(sal.year, sal.month, sal.day))
            || (sal.TemperatureBroadcast? && !(0.0 <= sal.temperature <= 63.75))
    ensures sal.TemperatureBroadcast? && Encode(sal).Ok? ==>
              var e := Encode(sal).value;
              |e| == 3 && e[1] == sal.group
              && e[2] as real / 4.0 <= sal.temperature < (e[2] as real + 1.0) / 4.0
    ensures sal.StatusRequest? ==>
              Encode(sal).Ok? && |Encode(sal).value| >= 3
              && var block := Encode(sal).value[|Encode(sal).value| - 1];
                 block % 32 == 0 && block <= sal.group < block + 32
  {}

  /** A lighting message stands at the front. */
  predicate LightingStands(data: seq<Byte>) {
    |data| >= 2 && (data[0] in {0x79, 0x01, 0x09} || (|data| >= 3 && data[0] % 8 == 2 && data[0] <= 0x7A))
  }

  /** Lighting messages are read up to the first bytes that are none: what is read spells the bytes before them. */
  lemma {:induction false} LightingIsMaximal(app: Byte, data: seq<Byte>)
    requires IsLightingApp(app)
    ensures var sals := DecodeLighting(app, data);
            EncodeAll(sals).Ok? && EncodeAll(sals).value <= data && !LightingStands(data[|EncodeAll(sals).value|..])
    decreases |data|
  {
    if DecodeLighting(app, data) == [] {
      if |data| >= 2 {
        RateCodes(data[0]);
      }
    } else {
      var n := FrontLength(app, data);
      LightingIsMaximal(app, data[n..]);
      var rest := EncodeAll(DecodeLighting(app, data[n..])).value;
      assert data == data[..n] + data[n..];
      assert data[n..][|rest|..] == data[n + |rest|..];
    }
  }

  /** How many bytes the first message takes, which are its encoding. */
  lemma FrontLength(app: Byte, data: seq<Byte>) returns (n: nat)
    requires DecodeLighting(app, data) != []
    ensures 2 <= n <= |data|
    ensures var sals := DecodeLighting(app, data);
            && sals == [sals[0]] + DecodeLighting(app, data[n..]) && Encode(sals[0]) == Ok(data[..n])
  {
    if data[0] in {LIGHT_ON, LIGHT_OFF, LIGHT_TERMINATE_RAMP} {
      n := 2;
      assert data[..2] == [data[0], data[1]];
    } else {
      n := 3;
      RateRoundTrip(data[0]);
      assert data[..3] == [data[0], data[1], data[2]];
    }
  }

  /** A rate survives by way of its duration. */
  lemma RateRoundTrip(rate: Byte)
    requires RateToDuration(rate).Some?
    ensures DurationToRate(RateToDuration(rate).value) == rate
  {
    RampRatesAreRegular();
    var i :| 0 <= i < 16 && RAMP_RATES[i] == (rate, RateToDuration(rate).value);
    SnapFindsTabulated(RAMP_RATES, i, 0);
  }

  lemma KnownPassedOver(data: seq<Byte>, rest: seq<Byte>, length: nat)
    requires 1 <= length < 8 && data == [8 + length] + rest && rest != []
    requires (rest[0] == 0x01 && length != 5) || (rest[0] == 0x02 && length != 6)
    ensures DecodeClock(data) == DecodeClock(Skip(rest, length))
  {
    assert data[1..] == rest;
  }

  lemma UnknownPassedOver(data: seq<Byte>, rest: seq<Byte>, length: nat)
    requires 1 <= length < 8 && data == [8 + length] + rest && rest != [] && rest[0] !in {0x01, 0x02}
    ensures DecodeClock(data) == DecodeClock(Skip(Skip(rest, length), length))
  {
    assert data[1..] == rest;
  }

  lemma SkipAll(a: seq<Byte>, tail: seq<Byte>)
    ensures Skip(a + tail, |a|) == tail
  {}

  /** A clock variable of the right number but another length is passed over, as many bytes as it announces; one of an
      unknown number takes as many bytes again with it. */
  lemma ClockVariablesPassedOver(length: nat, own: seq<Byte>, more: seq<Byte>, tail: seq<Byte>)
    requires 1 <= length < 8 && |own| == length
    requires if own[0] == 0x01 then length != 5 && more == []
             else if own[0] == 0x02 then length != 6 && more == []
             else |more| == length
    ensures DecodeClock([8 + length] + (own + (more + tail))) == DecodeClock(tail)
  {
    var data, rest := [8 + length] + (own + (more + tail)), own + (more + tail);
    SkipAll(own, more + tail);
    SkipAll(more, tail);
    if own[0] == 0x01 || own[0] == 0x02 {
      KnownPassedOver(data, rest, length);
    } else {
      UnknownPassedOver(data, rest, length);
    }
  }

  /** A clock variable with a value no clock shows makes the whole frame invalid. */
  lemma BadClockValues(hour: Byte, minute: Byte, second: Byte, year: Year, month: Byte, day: Byte, last: Byte,
                       tail: seq<Byte>)
    ensures hour > 23 || minute > 59 || second > 59 ==>
              DecodeClock([0x0D, 0x01, hour, minute, second, last] + tail).Err?
    ensures !(1 <= year <= 9999) || !IsDate(year, month, day) ==>
              DecodeClock([0x0E, 0x02, year / 256, year % 256, month, day, last] + tail).Err?
  {
    var time, date := [0x01, hour, minute, second, last] + tail,
                      [0x02, year / 256, year % 256, month, day, last] + tail;
    assert ([0x0D, 0x01, hour, minute, second, last] + tail)[1..] == time;
    assert ([0x0E, 0x02, year / 256, year % 256, month, day, last] + tail)[1..] == date;
    assert ClockValue(time, 5) == [hour, minute, second, last];
    assert ClockValue(date, 6) == [year / 256, year % 256, month, day, last];
  }

  /** Which three bytes are a temperature, or a network variable: any header that is 2 modulo 8 below 128. */
  lemma ThreeByteMessages(header: Byte, group: Byte, value: Byte, tail: seq<Byte>)
    ensures DecodeTemperature([header, group, value] + tail)
         == if header < 128 && header % 8 == 2 then
              [TemperatureBroadcast(group, value as real / 4.0)] + DecodeTemperature(tail)
            else []
    ensures DecodeEnable([header, group, value] + tail)
         == if header < 128 && header % 8 == 2 then [EnableSetNetworkVariable(group, value)] + DecodeEnable(tail)
            else []
  {
    assert ([header, group, value] + tail)[3..] == tail;
  }

  /** Which bytes are a status request: two headers for a binary one, a pair of bytes for one of levels; and the block
      must be the first group of its thirty-two, or the whole frame is invalid. */
  lemma StatusRequestBytes(header: Byte, child: Byte, block: Byte, tail: seq<Byte>)
    ensures var data, more := [header, child, block] + tail, DecodeStatusRequests(tail);
            header == 0x7A || header == 0xFA ==>
              DecodeStatusRequests(data)
              == if block % 32 == 0 then Prepend(StatusRequest(false, block, child), more) else Err
    ensures var data, more := [0x73, 0x07, child, block] + tail, DecodeStatusRequests(tail);
            DecodeStatusRequests(data)
            == if block % 32 == 0 then Prepend(StatusRequest(true, block, child), more) else Err
    ensures header !in {0x7A, 0xFA, 0x73} || (header == 0x73 && child != 0x07) ==>
              DecodeStatusRequests([header, child, block] + tail).Err?
  {
    var data, long := [header, child, block] + tail, [0x73, 0x07, child, block] + tail;
    assert data[1..][2..] == tail && data[1..][0] == child && data[1..][1] == block;
    assert long[2..][2..] == tail && long[2..][0] == child && long[2..][1] == block;
  }

  /** Decoding yields messages of the frame's own application only. */
  lemma DecodedBelong(app: Byte, data: seq<Byte>)
    requires DecodeAll(app, data).Ok?
    ensures forall s | s in DecodeAll(app, data).value :: ApplicationOf(s) == app && IsLighting(s) == IsLightingApp(app)
  {
    if IsLightingApp(app) {
      LightingBelong(app, data);
    } else if app == APP_CLOCK {
      ClockBelong(data);
    } else if app == APP_TEMPERATURE {
      TemperatureBelong(data);
    } else if app == APP_ENABLE {
      EnableBelong(data);
    } else {
      StatusRequestsBelong(data);
    }
  }

  lemma LightingBelong(app: Byte, data: seq<Byte>)
    ensures forall s | s in DecodeLighting(app, data) :: ApplicationOf(s) == app && IsLighting(s)
  {}

  lemma ClockBelong(data: seq<Byte>)
    requires DecodeClock(data).Ok?
    ensures forall s | s in DecodeClock(data).value :: ApplicationOf(s) == APP_CLOCK && !IsLighting(s)
    decreases |data|
  {
    forall d: seq<Byte> | |d| < |data| && DecodeClock(d).Ok?
      ensures forall s | s in DecodeClock(d).value :: ApplicationOf(s) == APP_CLOCK && !IsLighting(s)
    {
      ClockBelong(d);
    }
  }

  lemma TemperatureBelong(data: seq<Byte>)
    ensures forall s | s in DecodeTemperature(data) :: ApplicationOf(s) == APP_TEMPERATURE && !IsLighting(s)
  {}

  lemma EnableBelong(data: seq<Byte>)
    ensures forall s | s in DecodeEnable(data) :: ApplicationOf(s) == APP_ENABLE && !IsLighting(s)
  {}

  lemma StatusRequestsBelong(data: seq<Byte>)
    requires DecodeStatusRequests(data).Ok?
    ensures forall s | s in DecodeStatusRequests(data).value :: ApplicationOf(s) == APP_STATUS_REQUEST && !IsLighting(s)
  {}

  /** The converse: what cannot be represented fails to encode or comes back changed. */
  lemma OnlyRepresentableRoundTrips(sal: Sal)
    requires Encode(sal).Ok?
    requires DecodeAll(ApplicationOf(sal), Encode(sal).value) == Ok([sal])
    ensures Representable(sal)
  {
    DecodedBelong(ApplicationOf(sal), Encode(sal).value);
    assert [sal][0] in [sal];
    match sal {
      case LightingRamp(_, _, _, _) => RampOnlyIfTabulated(sal);
      case ClockUpdateTime(_, _, _) => ClockOnlyIfValid(sal);
      case ClockUpdateDate(_, _, _) => ClockOnlyIfValid(sal);
      case TemperatureBroadcast(_, temperature) =>
        var e := Encode(sal).value;
        assert DecodeTemperature(e)[0] == TemperatureBroadcast(e[1], e[2] as real / 4.0);
      case StatusRequest(_, group, _) =>
        assert DecodeStatusRequests(Encode(sal).value).value[0].group == group - group % 32;
      case _ =>
    }
  }

  lemma RampOnlyIfTabulated(sal: Sal)
    requires sal.LightingRamp? && IsLightingApp(sal.application)
    requires DecodeLighting(sal.application, Encode(sal).value) == [sal]
    ensures Representable(sal)
  {
    RampDurationRoundTrip(sal.duration);
    var rate := DurationToRate(sal.duration);
    var snapped := RateToDuration(rate).value;
    RampFront(sal.application, rate, sal.group, snapped, sal.level, []);
    assert Encode(sal).value == [rate, sal.group, sal.level] + [];
    assert [sal][0] == LightingRamp(sal.application, sal.group, snapped, sal.level);
  }

  lemma ClockOnlyIfValid(sal: Sal)
    requires sal.ClockUpdateTime? || sal.ClockUpdateDate?
    requires Encode(sal).Ok? && DecodeClock(Encode(sal).value) == Ok([sal])
    ensures Representable(sal)
  {
    var e := Encode(sal).value;
    if sal.ClockUpdateTime? {
      assert ClockValue(e[1..], 5) == e[2..];
    } else {
      assert ClockValue(e[1..], 6) == e[2..];
    }
  }
}
