/** MQTT topic names: printing a group and application into one, and reading them back. */
module Topics {

  type GroupAddress = g: int | 0 <= g < 256
  type I64 = n: int | -0x8000_0000_0000_0000 <= n < 0x8000_0000_0000_0000

  const LIGHT_PREFIX := "homeassistant/light/cbus_"
  const SENSOR_PREFIX := "homeassistant/binary_sensor/cbus_"
  const SET_SUFFIX := "/set"
  const CONFIG_SUFFIX := "/config"
  const STATE_SUFFIX := "/state"
  const DEFAULT_LIGHTING: I64 := 0x38

  // ---- Printing -------------------------------------------------------------------------

  predicate IsDigit(c: char) {
    '0' <= c <= '9'
  }

  function DigitOf(d: nat): (c: char)
    requires d < 10
    ensures IsDigit(c)
  {
    '0' + d as char
  }

  function Digits(n: nat): (s: string)
    ensures s != "" && forall c | c in s :: IsDigit(c)
  {
    if n < 10 then [DigitOf(n)] else Digits(n / 10) + [DigitOf(n % 10)]
  }

  function Zeros(n: nat): (s: string)
    ensures |s| == n && forall c | c in s :: c == '0'
  {
    if n == 0 then "" else Zeros(n - 1) + "0"
  }

  function Pad(s: string, width: nat): string {
    if |s| < width then Zeros(width - |s|) + s else s
  }

  /** Zeros fill up to the width between the sign, which counts, and the digits. */
  function Show(n: int, width: nat): string {
    if n < 0 then "-" + Pad(Digits(-n), if width == 0 then 0 else width - 1) else Pad(Digits(n), width)
  }

  function GroupString(group: GroupAddress, app: I64, zeros: bool): string {
    if app == DEFAULT_LIGHTING then Show(group, if zeros then 3 else 0)
    else Show(app, 3) + "_" + Show(group, 3)
  }

  datatype Kind = LightSet | LightState | LightConfig | SensorState | SensorConfig

  function Prefix(kind: Kind): string {
    if kind.SensorState? || kind.SensorConfig? then SENSOR_PREFIX else LIGHT_PREFIX
  }

  function Suffix(kind: Kind): string {
    match kind
    case LightSet => SET_SUFFIX
    case LightState => STATE_SUFFIX
    case SensorState => STATE_SUFFIX
    case _ => CONFIG_SUFFIX
  }

  function Topic(kind: Kind, group: GroupAddress, app: I64): string {
    Prefix(kind) + GroupString(group, app, false) + Suffix(kind)
  }

  // ---- Reading --------------------------------------------------------------------------

  /** Unicode white space. */
  predicate IsSpace(c: char) {
    || '\U{0009}' <= c <= '\U{000D}' || c == ' ' || c == '\U{0085}' || c == '\U{00A0}' || c == '\U{1680}'
    || '\U{2000}' <= c <= '\U{200A}' || c == '\U{2028}' || c == '\U{2029}' || c == '\U{202F}' || c == '\U{205F}'
    || c == '\U{3000}'
  }

  function TrimStart(s: string): string {
    if s != "" && IsSpace(s[0]) then TrimStart(s[1..]) else s
  }

  function TrimEnd(s: string): string {
    if s != "" && IsSpace(s[|s| - 1]) then TrimEnd(s[..|s| - 1]) else s
  }

  function DigitValue(c: char): nat
    requires IsDigit(c)
  {
    c as int - '0' as int
  }

  function ValueOf(s: string): nat
    requires forall c | c in s :: IsDigit(c)
  {
    if s == "" then 0 else 10 * ValueOf(s[..|s| - 1]) + DigitValue(s[|s| - 1])
  }

  function Signed(negative: bool, magnitude: int): int {
    if negative then -magnitude else magnitude
  }

  datatype Reading = Read(value: I64) | NotAnInteger

  /** A decimal number with an optional sign, in 64 bits. */
  function ParseI64(s: string): Reading {
    var negative := s != "" && s[0] == '-';
    var digits := if negative || (s != "" && s[0] == '+') then s[1..] else s;
    if digits == "" || exists c | c in digits :: !IsDigit(c) then NotAnInteger
    else
      var n := Signed(negative, ValueOf(digits));
      if -0x8000_0000_0000_0000 <= n < 0x8000_0000_0000_0000 then Read(n) else NotAnInteger
  }

  function ParseInt(s: string): Reading {
    ParseI64(TrimEnd(TrimStart(s)))
  }

  function Split(s: string, sep: char): (parts: seq<string>)
    ensures parts != []
  {
    if s == "" then [""]
    else
      var rest := Split(s[1..], sep);
      if s[0] == sep then [""] + rest else [[s[0]] + rest[0]] + rest[1..]
  }

  datatype Address = Address(group: GroupAddress, app: I64) | InvalidPrefix | BadInteger | GroupOutOfRange

  /** The group and application a command topic names; parts after the second are ignored. */
  function GroupAndApplication(topic: string): Address {
    if !(LIGHT_PREFIX <= topic) then InvalidPrefix else AddressOf(topic[|LIGHT_PREFIX|..])
  }

  function AddressOf(rest: string): Address {
    var parts := Split(Split(rest, '/')[0], '_');
    var app := if |parts| >= 2 then ParseInt(parts[0]) else Read(DEFAULT_LIGHTING);
    var group := ParseInt(if |parts| >= 2 then parts[1] else parts[0]);
    if app.NotAnInteger? || group.NotAnInteger? then BadInteger
    else if 0 <= group.value < 256 then Address(group.value, app.value)
    else GroupOutOfRange
  }

  // ---- Reading what was printed ---------------------------------------------------------

  lemma {:induction false} ValueOfDigits(n: nat)
    ensures ValueOf(Digits(n)) == n
  {
    var s := Digits(n);
    if n >= 10 {
      ValueOfDigits(n / 10);
      assert s[..|s| - 1] == Digits(n / 10);
    } else {
      assert s[..|s| - 1] == "";
    }
  }

  lemma {:induction false} ZerosCountNothing(n: nat, s: string)
    requires forall c | c in s :: IsDigit(c)
    ensures ValueOf(Zeros(n) + s) == ValueOf(s)
    decreases n + |s|
  {
    var t := Zeros(n) + s;
    if s != "" {
      assert t[..|t| - 1] == Zeros(n) + s[..|s| - 1];
      ZerosCountNothing(n, s[..|s| - 1]);
    } else if n > 0 {
      assert t == Zeros(n - 1) + "0" && t[..|t| - 1] == Zeros(n - 1) + "";
      ZerosCountNothing(n - 1, "");
    }
  }

  predicate IsDigits(s: string) {
    s != "" && forall c | c in s :: IsDigit(c)
  }

  lemma PadIsDigits(n: nat, width: nat)
    ensures IsDigits(Pad(Digits(n), width)) && ValueOf(Pad(Digits(n), width)) == n
  {
    ValueOfDigits(n);
    if |Digits(n)| < width {
      ZerosCountNothing(width - |Digits(n)|, Digits(n));
    }
  }

  /** What a printed number is made of: digits after an optional minus, so no separator and no space. */
  lemma ShowIsPlain(n: int, width: nat)
    ensures Show(n, width) != "" && forall c | c in Show(n, width) :: c == '-' || IsDigit(c)
  {
    if n < 0 {
      PadIsDigits(-n, if width == 0 then 0 else width - 1);
    } else {
      PadIsDigits(n, width);
    }
  }

  lemma NothingToTrim(s: string)
    requires s != "" && forall c | c in s :: c == '-' || IsDigit(c)
    ensures TrimEnd(TrimStart(s)) == s
  {
    assert s[0] in s && s[|s| - 1] in s;
  }

  lemma ReadUnsigned(s: string)
    requires IsDigits(s) && ValueOf(s) < 0x8000_0000_0000_0000
    ensures ParseI64(s) == Read(ValueOf(s))
  {
    assert s[0] in s;
  }

  lemma ReadNegative(s: string)
    requires IsDigits(s) && ValueOf(s) <= 0x8000_0000_0000_0000
    ensures ParseI64("-" + s) == Read(Signed(true, ValueOf(s)))
  {
    assert ("-" + s)[1..] == s;
  }

  lemma MinusIsRead(n: int, s: string)
    requires -0x8000_0000_0000_0000 <= n < 0 && IsDigits(s) && ValueOf(s) == -n
    ensures ParseI64("-" + s) == Read(n)
  {
    ReadNegative(s);
  }

  lemma NegativeIsRead(n: int, width: nat)
    requires -0x8000_0000_0000_0000 <= n < 0
    ensures ParseI64(Show(n, width)) == Read(n)
  {
    var s := Pad(Digits(-n), if width == 0 then 0 else width - 1);
    PadIsDigits(-n, if width == 0 then 0 else width - 1);
    assert Show(n, width) == "-" + s;
    MinusIsRead(n, s);
  }

  lemma NaturalIsRead(n: int, width: nat)
    requires 0 <= n < 0x8000_0000_0000_0000
    ensures ParseI64(Show(n, width)) == Read(n)
  {
    PadIsDigits(n, width);
    ReadUnsigned(Pad(Digits(n), width));
  }

  /** Printed to any width, a 64-bit number is read back. */
  lemma ParseInvertsShow(n: int, width: nat)
    requires -0x8000_0000_0000_0000 <= n < 0x8000_0000_0000_0000
    ensures ParseInt(Show(n, width)) == Read(n)
  {
    ShowIsPlain(n, width);
    NothingToTrim(Show(n, width));
    if n < 0 {
      NegativeIsRead(n, width);
    } else {
      NaturalIsRead(n, width);
    }
  }

  lemma {:induction false} SplitWhole(s: string, sep: char)
    requires sep !in s
    ensures Split(s, sep) == [s]
  {
    if s != "" {
      SplitWhole(s[1..], sep);
      assert s == [s[0]] + s[1..];
    }
  }

  lemma {:induction false} SplitFirst(a: string, sep: char, b: string)
    requires sep !in a
    ensures Split(a + [sep] + b, sep) == [a] + Split(b, sep)
  {
    var s := a + [sep] + b;
    if a == "" {
      assert s[1..] == b;
    } else {
      assert s[1..] == a[1..] + [sep] + b;
      SplitFirst(a[1..], sep, b);
      assert a == [a[0]] + a[1..];
    }
  }

  lemma GroupStringParts(group: GroupAddress, app: I64)
    ensures '/' !in GroupString(group, app, false)
    ensures Split(GroupString(group, app, false), '_')
         == if app == DEFAULT_LIGHTING then [Show(group, 0)] else [Show(app, 3), Show(group, 3)]
  {
    ShowIsPlain(group, 0);
    ShowIsPlain(group, 3);
    ShowIsPlain(app, 3);
    if app == DEFAULT_LIGHTING {
      SplitWhole(Show(group, 0), '_');
    } else {
      SplitFirst(Show(app, 3), '_', Show(group, 3));
      SplitWhole(Show(group, 3), '_');
    }
  }

  lemma AddressRoundTrip(group: GroupAddress, app: I64)
    ensures AddressOf(GroupString(group, app, false) + SET_SUFFIX) == Address(group, app)
  {
    var s := GroupString(group, app, false);
    assert s + SET_SUFFIX == s + ['/'] + "set";
    GroupStringParts(group, app);
    SplitFirst(s, '/', "set");
    ParseInvertsShow(group, 0);
    ParseInvertsShow(group, 3);
    ParseInvertsShow(app, 3);
  }

  lemma DropPrefix(prefix: string, rest: string)
    ensures prefix <= prefix + rest && (prefix + rest)[|prefix|..] == rest
  {}

  /** A command topic names its own group and application, for every group and every 64-bit application. */
  lemma TopicRoundTrip(group: GroupAddress, app: I64)
    ensures GroupAndApplication(Topic(LightSet, group, app)) == Address(group, app)
  {
    var rest := GroupString(group, app, false) + SET_SUFFIX;
    AddressRoundTrip(group, app);
    DropPrefix(LIGHT_PREFIX, rest);
    assert Topic(LightSet, group, app) == LIGHT_PREFIX + rest;
  }

  // ---- What a topic can be refused for --------------------------------------------------

  /** What a number names as a group. */
  function Named(group: int, app: I64): Address {
    if 0 <= group < 256 then Address(group, app) else GroupOutOfRange
  }

  lemma PartsOf(rest: string, a: string, b: string)
    requires '/' !in a && '/' !in b && '_' !in a && '_' !in b && rest == a + "_" + b + "/set"
    ensures Split(Split(rest, '/')[0], '_') == [a, b]
  {
    assert rest == (a + ['_'] + b) + ['/'] + "set";
    SplitFirst(a + ['_'] + b, '/', "set");
    SplitFirst(a, '_', b);
    SplitWhole(b, '_');
  }

  lemma PartOf(rest: string, a: string)
    requires '/' !in a && '_' !in a && rest == a + "/set"
    ensures Split(Split(rest, '/')[0], '_') == [a]
  {
    assert rest == a + ['/'] + "set";
    SplitFirst(a, '/', "set");
    SplitWhole(a, '_');
  }

  /** Any 64-bit number in a topic, of any width, is taken for the group it is, or refused as out of range; with an
      application before it or without, which means the default one. */
  lemma NumbersInTopics(group: I64, app: I64, width: nat)
    ensures GroupAndApplication("homeassistant/light/cbus_" + (Show(app, width) + "_" + Show(group, width) + "/set"))
         == Named(group, app)
    ensures GroupAndApplication("homeassistant/light/cbus_" + (Show(group, width) + "/set")) == Named(group, 0x38)
  {
    var both, one := Show(app, width) + "_" + Show(group, width) + "/set", Show(group, width) + "/set";
    DropPrefix(LIGHT_PREFIX, both);
    DropPrefix(LIGHT_PREFIX, one);
    ShowIsPlain(app, width);
    ShowIsPlain(group, width);
    PartsOf(both, Show(app, width), Show(group, width));
    PartOf(one, Show(group, width));
    ParseInvertsShow(app, width);
    ParseInvertsShow(group, width);
  }

  /** A topic of another prefix, or with a part that is no number in place of group or application, is refused as
      such. */
  lemma TopicsRefused(topic: string, a: string, b: string)
    requires '/' !in a && '/' !in b && '_' !in a && '_' !in b
    ensures !("homeassistant/light/cbus_" <= topic) <==> GroupAndApplication(topic) == InvalidPrefix
    ensures GroupAndApplication("homeassistant/light/cbus_" + (a + "_" + b + "/set")) == BadInteger
       <==> ParseInt(a) == NotAnInteger || ParseInt(b) == NotAnInteger
    ensures GroupAndApplication("homeassistant/light/cbus_" + (b + "/set")) == BadInteger
       <==> ParseInt(b) == NotAnInteger
  {
    DropPrefix(LIGHT_PREFIX, a + "_" + b + "/set");
    DropPrefix(LIGHT_PREFIX, b + "/set");
    PartsOf(a + "_" + b + "/set", a, b);
    PartOf(b + "/set", b);
  }

  /** What is no number: nothing at all, a sign alone, anything but digits behind the sign, or one beyond 64 bits. */
  lemma NoNumberIff(s: string)
    requires s == "" || !(IsSpace(s[0]) || IsSpace(s[|s| - 1]))
    ensures var digits := if s != "" && (s[0] == '-' || s[0] == '+') then s[1..] else s;
            ParseInt(s) == NotAnInteger <==>
            || !IsDigits(digits)
            || (s[0] == '-' && ValueOf(digits) > 0x8000_0000_0000_0000)
            || (s[0] != '-' && ValueOf(digits) >= 0x8000_0000_0000_0000)
  {}

  /** No two topics the daemon uses coincide, whatever they are for. */
  lemma TopicsAreDistinct(k: Kind, g: GroupAddress, a: I64, l: Kind, h: GroupAddress, b: I64)
    requires Topic(k, g, a) == Topic(l, h, b)
    ensures k == l && g == h && a == b
  {
    SuffixTells(k, g, a);
    SuffixTells(l, h, b);
    var s, t := GroupString(g, a, false), GroupString(h, b, false);
    assert Prefix(k) == Prefix(l) && Suffix(k) == Suffix(l);
    assert Topic(k, g, a)[|Prefix(k)|..|Prefix(k)| + |s|] == s;
    assert Topic(l, h, b)[|Prefix(k)|..|Prefix(k)| + |t|] == t;
    assert Topic(LightSet, g, a) == Topic(LightSet, h, b);
    TopicRoundTrip(g, a);
    TopicRoundTrip(h, b);
  }

  lemma SuffixTells(k: Kind, g: GroupAddress, a: I64)
    ensures var t := Topic(k, g, a);
            && |t| > 25
            && (t[14] == 'l' <==> k.LightSet? || k.LightState? || k.LightConfig?)
            && (t[|t| - 1] == 't' <==> k.LightSet?)
            && (t[|t| - 1] == 'e' <==> k.LightState? || k.SensorState?)
  {
    var t := Topic(k, g, a);
    var n := |Prefix(k) + GroupString(g, a, false)|;
    assert forall i | 0 <= i < |Prefix(k)| :: t[i] == Prefix(k)[i];
    assert forall i | 0 <= i < |Suffix(k)| :: t[n + i] == Suffix(k)[i];
  }
}
