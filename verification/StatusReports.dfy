/** Group status reports: binary (four states a byte) and level (two Manchester bytes a level). */
module StatusReports {
  import opened Bytes
  import opened Wrappers

  /** missing, on, off, error */
  type GroupState = s: int | 0 <= s < 4

  datatype StatusReport =
    | Binary(states: seq<GroupState>)
    | Level(levels: seq<Option<Byte>>)

  function BlockType(report: StatusReport): Byte {
    if report.Binary? then 0 else 7
  }

  // ---- Manchester pairs -----------------------------------------------------------------

  function Nibble(v: int): Byte
    requires 0 <= v < 4
  {
    if v == 0 then 0xA else if v == 1 then 0x9 else if v == 2 then 0x6 else 0x5
  }

  function NibbleIndex(n: int): (r: Option<int>)
    ensures r.Some? ==> 0 <= r.value < 4
  {
    if n == 0xA then Some(0)
    else if n == 0x9 then Some(1)
    else if n == 0x6 then Some(2)
    else if n == 0x5 then Some(3)
    else None
  }

  function ManchesterDecode(b0: Byte, b1: Byte): Option<Byte> {
    match (NibbleIndex(b0 % 16), NibbleIndex(b0 / 16), NibbleIndex(b1 % 16), NibbleIndex(b1 / 16))
    case (Some(n0), Some(n1), Some(n2), Some(n3)) => Some(n0 + 4 * n1 + 16 * n2 + 64 * n3)
    case _ => None
  }

  function ManchesterEncode(level: Option<Byte>): (r: seq<Byte>)
    ensures |r| == 2
  {
    match level
    case None => [0, 0]
    case Some(v) => NibblePair(v % 4, v / 4 % 4, v / 16 % 4, v / 64)
  }

  function NibblePair(d0: int, d1: int, d2: int, d3: int): (r: seq<Byte>)
    requires 0 <= d0 < 4 && 0 <= d1 < 4 && 0 <= d2 < 4 && 0 <= d3 < 4
    ensures |r| == 2
  {
    [Nibble(d0) + 16 * Nibble(d1), Nibble(d2) + 16 * Nibble(d3)]
  }

  function DecodedPair(pair: seq<Byte>): Option<Byte>
    requires |pair| == 2
  {
    ManchesterDecode(pair[0], pair[1])
  }

  lemma PairRoundTrip(d0: int, d1: int, d2: int, d3: int)
    requires 0 <= d0 < 4 && 0 <= d1 < 4 && 0 <= d2 < 4 && 0 <= d3 < 4
    ensures DecodedPair(NibblePair(d0, d1, d2, d3)) == Some(d0 + 4 * d1 + 16 * d2 + 64 * d3)
  {
    var pair := NibblePair(d0, d1, d2, d3);
    NibbleBytes(d0, d1);
    NibbleBytes(d2, d3);
    DecodesTo(pair[0], pair[1], d0, d1, d2, d3);
  }

  lemma DecodesTo(b0: Byte, b1: Byte, d0: int, d1: int, d2: int, d3: int)
    requires NibbleIndex(b0 % 16) == Some(d0) && NibbleIndex(b0 / 16) == Some(d1)
    requires NibbleIndex(b1 % 16) == Some(d2) && NibbleIndex(b1 / 16) == Some(d3)
    ensures ManchesterDecode(b0, b1) == Some(d0 + 4 * d1 + 16 * d2 + 64 * d3)
  {}

  lemma BaseFour(v: int)
    requires 0 <= v < 256
    ensures v == v % 4 + 4 * (v / 4 % 4) + 16 * (v / 16 % 4) + 64 * (v / 64)
    ensures 0 <= v / 64 < 4
  {
    assert v == v % 4 + 4 * (v / 4);
    assert v / 16 == v / 4 / 4 && v / 64 == v / 16 / 4;
    assert v / 4 == v / 4 % 4 + 4 * (v / 16);
    assert v / 16 == v / 16 % 4 + 4 * (v / 64);
  }

  lemma DigitsRoundTrip(v: Byte, d0: int, d1: int, d2: int, d3: int)
    requires 0 <= d0 < 4 && 0 <= d1 < 4 && 0 <= d2 < 4 && 0 <= d3 < 4
    requires v == d0 + 4 * d1 + 16 * d2 + 64 * d3
    ensures DecodedPair(NibblePair(d0, d1, d2, d3)) == Some(v)
  {
    PairRoundTrip(d0, d1, d2, d3);
  }

  lemma ManchesterRoundTrip(level: Option<Byte>)
    ensures DecodedPair(ManchesterEncode(level)) == level
  {
    if level.Some? {
      var v := level.value;
      BaseFour(v);
      DigitsRoundTrip(v, v % 4, v / 4 % 4, v / 16 % 4, v / 64);
    }
  }

  lemma BaseFourDigits(d0: int, d1: int, d2: int, d3: int)
    requires 0 <= d0 < 4 && 0 <= d1 < 4 && 0 <= d2 < 4 && 0 <= d3 < 4
    ensures var v := d0 + 4 * d1 + 16 * d2 + 64 * d3;
            v % 4 == d0 && v / 4 % 4 == d1 && v / 16 % 4 == d2 && v / 64 == d3
  {
    var v := d0 + 4 * d1 + 16 * d2 + 64 * d3;
    assert v / 4 == d1 + 4 * d2 + 16 * d3;
    assert v / 16 == d2 + 4 * d3;
    assert v / 64 == d3;
  }

  lemma NibbleBytes(lo: int, hi: int)
    requires 0 <= lo < 4 && 0 <= hi < 4
    ensures var b := Nibble(lo) + 16 * Nibble(hi);
            NibbleIndex(b % 16) == Some(lo) && NibbleIndex(b / 16) == Some(hi)
  {
    assert 0 <= Nibble(lo) < 16;
  }

  lemma NibbleInverts(n: int)
    requires NibbleIndex(n).Some?
    ensures Nibble(NibbleIndex(n).value) == n
  {}

  /** Each level has one pair, and a pair of no level decodes to none: four nibbles A, 9, 6 or 5 make a level. */
  lemma ManchesterInverts(b0: Byte, b1: Byte)
    ensures ManchesterDecode(b0, b1).Some? <==>
              forall n | n in [b0 % 16, b0 / 16, b1 % 16, b1 / 16] :: n in {5, 6, 9, 10}
    ensures ManchesterDecode(b0, b1).Some? ==> ManchesterEncode(ManchesterDecode(b0, b1)) == [b0, b1]
  {
    var nibbles := [b0 % 16, b0 / 16, b1 % 16, b1 / 16];
    assert nibbles[0] in nibbles && nibbles[1] in nibbles && nibbles[2] in nibbles && nibbles[3] in nibbles;
    assert forall n :: NibbleIndex(n).Some? <==> n in {5, 6, 9, 10};
    if ManchesterDecode(b0, b1).Some? {
      NibbleInverts(b0 % 16);
      NibbleInverts(b0 / 16);
      NibbleInverts(b1 % 16);
      NibbleInverts(b1 / 16);
      BaseFourDigits(NibbleIndex(b0 % 16).value, NibbleIndex(b0 / 16).value, NibbleIndex(b1 % 16).value,
                     NibbleIndex(b1 / 16).value);
    }
  }

  // ---- Level reports --------------------------------------------------------------------

  function EncodeLevels(levels: seq<Option<Byte>>): (r: seq<Byte>)
    ensures |r| == 2 * |levels|
  {
    if levels == [] then [] else ManchesterEncode(levels[0]) + EncodeLevels(levels[1..])
  }

  function DecodePairs(data: seq<Byte>): (r: seq<Option<Byte>>)
    requires |data| % 2 == 0
    ensures |r| == |data| / 2
    ensures forall i | 0 <= i < |r| :: r[i] == ManchesterDecode(data[2 * i], data[2 * i + 1])
  {
    if data == [] then [] else [ManchesterDecode(data[0], data[1])] + DecodePairs(data[2..])
  }

  function DecodeLevel(data: seq<Byte>): Result<StatusReport> {
    if |data| % 2 != 0 then Err else Ok(Level(DecodePairs(data)))
  }

  lemma {:induction false} LevelsRoundTrip(levels: seq<Option<Byte>>)
    ensures DecodeLevel(EncodeLevels(levels)) == Ok(Level(levels))
  {
    if levels != [] {
      ManchesterRoundTrip(levels[0]);
      LevelsRoundTrip(levels[1..]);
      FirstPair(ManchesterEncode(levels[0]), EncodeLevels(levels[1..]));
      assert levels == [levels[0]] + levels[1..];
    }
  }

  lemma FirstPair(pair: seq<Byte>, data: seq<Byte>)
    requires |pair| == 2 && |data| % 2 == 0
    ensures DecodePairs(pair + data) == [ManchesterDecode(pair[0], pair[1])] + DecodePairs(data)
  {
    assert (pair + data)[2..] == data;
  }

  // ---- Binary reports -------------------------------------------------------------------

  /** The states padded with "missing" up to a multiple of four. */
  function Pad(states: seq<GroupState>): (r: seq<GroupState>)
    ensures |r| % 4 == 0 && |states| <= |r| < |states| + 4
    ensures r[..|states|] == states && forall i | |states| <= i < |r| :: r[i] == 0
  {
    states + seq((4 - |states| % 4) % 4, i => 0)
  }

  function Pack(states: seq<GroupState>): (r: seq<Byte>)
    requires |states| % 4 == 0
    ensures |r| == |states| / 4
  {
    if states == [] then []
    else [PackByte(states[0], states[1], states[2], states[3])] + Pack(states[4..])
  }

  function PackByte(s0: int, s1: int, s2: int, s3: int): Byte
    requires 0 <= s0 < 4 && 0 <= s1 < 4 && 0 <= s2 < 4 && 0 <= s3 < 4
  {
    s0 + 4 * s1 + 16 * s2 + 64 * s3
  }

  function Quarters(b: Byte): seq<GroupState> {
    [b % 4, b / 4 % 4, b / 16 % 4, b / 64]
  }

  function Unpack(data: seq<Byte>): (r: seq<GroupState>)
    ensures |r| == 4 * |data|
  {
    if data == [] then [] else Quarters(data[0]) + Unpack(data[1..])
  }

  function Encode(report: StatusReport): seq<Byte> {
    match report
    case Binary(states) => Pack(Pad(states))
    case Level(levels) => EncodeLevels(levels)
  }

  lemma {:induction false} UnpackInvertsPack(states: seq<GroupState>)
    requires |states| % 4 == 0
    ensures Unpack(Pack(states)) == states
  {
    if states != [] {
      UnpackInvertsPack(states[4..]);
      BaseFourDigits(states[0], states[1], states[2], states[3]);
      assert states == [states[0], states[1], states[2], states[3]] + states[4..];
    }
  }

  /** Every byte string is the packing of the states it stands for. */
  lemma {:induction false} PackInvertsUnpack(data: seq<Byte>)
    ensures Pack(Unpack(data)) == data
  {
    if data != [] {
      PackInvertsUnpack(data[1..]);
      assert Unpack(data)[4..] == Unpack(data[1..]);
      BaseFour(data[0]);
      assert data == [data[0]] + data[1..];
    }
  }

  /** A binary report comes back with the padding added, hence unchanged exactly when it needed none. */
  lemma BinaryRoundTrip(states: seq<GroupState>)
    ensures Unpack(Encode(Binary(states))) == Pad(states)
    ensures Unpack(Encode(Binary(states))) == states <==> |states| % 4 == 0
  {
    UnpackInvertsPack(Pad(states));
    if |states| % 4 == 0 {
      assert Pad(states) == states;
    }
  }

  // ---- The loops ------------------------------------------------------------------------

  /** `decode_binary`: pushes four states for every byte. */
  method DecodeBinary(data: seq<Byte>) returns (report: StatusReport)
    ensures report == Binary(Unpack(data))
  {
    var states: seq<GroupState> := [];
    for i := 0 to |data|
      invariant states == Unpack(data[..i])
    {
      UnpackConcat(data[..i], [data[i]]);
      UnpackFirst(data[i], []);
      assert data[..i + 1] == data[..i] + [data[i]] && [data[i]] + [] == [data[i]];
      states := states + [data[i] % 4];
      states := states + [data[i] / 4 % 4];
      states := states + [data[i] / 16 % 4];
      states := states + [data[i] / 64 % 4];
    }
    assert data[..|data|] == data;
    report := Binary(states);
  }

  lemma {:induction false} UnpackConcat(a: seq<Byte>, b: seq<Byte>)
    ensures Unpack(a + b) == Unpack(a) + Unpack(b)
  {
    if a == [] {
      assert a + b == b;
    } else {
      UnpackConcat(a[1..], b);
      UnpackFirst(a[0], a[1..] + b);
      UnpackFirst(a[0], a[1..]);
      assert a + b == [a[0]] + (a[1..] + b) && a == [a[0]] + a[1..];
      Regroup(Quarters(a[0]), Unpack(a[1..]), Unpack(b));
    }
  }

  lemma UnpackFirst(b: Byte, data: seq<Byte>)
    ensures Unpack([b] + data) == Quarters(b) + Unpack(data)
  {
    assert ([b] + data)[1..] == data;
  }
}
