/** The C-Bus checksum: the Rust functions, the C loops, and what the checksum detects. */
module Checksum {
  import opened Bytes

  function Sum(data: seq<Byte>): nat {
    if data == [] then 0 else data[0] + Sum(data[1..])
  }

  /** Rust: the low byte of the sum, complemented, plus one. */
  function Compute(data: seq<Byte>): Byte {
    Complement(Sum(data))
  }

  function Complement(sum: nat): Byte {
    (255 - sum % 256 + 1) % 256
  }

  function Append(data: seq<Byte>): seq<Byte> {
    data + [Compute(data)]
  }

  predicate Validate(data: seq<Byte>) {
    data != [] && data[|data| - 1] == Compute(data[..|data| - 1])
  }

  lemma {:induction false} SumConcat(a: seq<Byte>, b: seq<Byte>)
    ensures Sum(a + b) == Sum(a) + Sum(b)
  {
    if a == [] {
      assert a + b == b;
    } else {
      SumConcat(a[1..], b);
      assert (a + b)[1..] == a[1..] + b;
    }
  }

  lemma ComplementAddsUpToZero(sum: nat, last: Byte)
    ensures last == Complement(sum) <==> (sum + last) % 256 == 0
  {
    var r := sum % 256;
    assert sum == 256 * (sum / 256) + r;
    assert (sum + last) % 256 == (r + last) % 256;
  }

  lemma SumOfOne(b: Byte)
    ensures Sum([b]) == b
  {
    assert [b][1..] == [];
  }

  lemma AcceptedSnoc(rest: seq<Byte>, last: Byte)
    ensures Validate(rest + [last]) <==> Sum(rest + [last]) % 256 == 0
  {
    assert (rest + [last])[..|rest|] == rest;
    SumConcat(rest, [last]);
    SumOfOne(last);
    ComplementAddsUpToZero(Sum(rest), last);
  }

  /** A message is accepted exactly when its bytes, checksum included, add up to 0 modulo 256. */
  lemma AcceptedIffSumIsZero(data: seq<Byte>)
    requires data != []
    ensures Validate(data) <==> Sum(data) % 256 == 0
  {
    assert data == data[..|data| - 1] + [data[|data| - 1]];
    AcceptedSnoc(data[..|data| - 1], data[|data| - 1]);
  }

  /** Whatever is sent with its checksum appended is accepted, and the checksum is the only byte that does it. */
  lemma AppendedIsAccepted(data: seq<Byte>, last: Byte)
    ensures Validate(data + [last]) <==> data + [last] == Append(data)
  {
    assert (data + [last])[..|data|] == data;
    assert Append(data)[|data|] == Compute(data);
  }

  /** Corrupting the byte at `i` of an accepted message is always detected. */
  lemma OneByteChangeIsRejected(data: seq<Byte>, i: nat, b: Byte)
    requires i < |data| && b != data[i]
    requires Validate(data)
    ensures !Validate(data[i := b])
  {
    var changed := data[i := b];
    SumUpdate(data, i, b);
    AcceptedIffSumIsZero(data);
    AcceptedIffSumIsZero(changed);
    DifferentBytesShow(Sum(data), Sum(changed), data[i], b);
  }

  lemma DifferentBytesShow(sum: int, changed: int, was: Byte, b: Byte)
    requires sum % 256 == 0 && changed == sum - was + b && b != was
    ensures changed % 256 != 0
  {}

  /** Two corrupted bytes escape detection exactly when their changes cancel modulo 256. */
  lemma TwoByteChangeEscapesIffItCancels(data: seq<Byte>, i: nat, b: Byte, j: nat, c: Byte)
    requires i < j < |data|
    requires Validate(data)
    ensures Validate(data[i := b][j := c]) <==> (b - data[i] + c - data[j]) % 256 == 0
  {
    SumUpdate(data, i, b);
    SumUpdate(data[i := b], j, c);
    AcceptedIffSumIsZero(data);
    AcceptedIffSumIsZero(data[i := b][j := c]);
    ShiftedSum(Sum(data), b - data[i] + c - data[j]);
  }

  lemma ShiftedSum(sum: int, change: int)
    requires sum % 256 == 0
    ensures (sum + change) % 256 == change % 256
  {
    assert sum == 256 * (sum / 256);
  }

  lemma SumUpdate(data: seq<Byte>, i: nat, b: Byte)
    requires i < |data|
    ensures Sum(data[i := b]) == Sum(data) - data[i] + b
  {
    var before, after := data[..i], data[i + 1..];
    assert data == before + ([data[i]] + after);
    assert data[i := b] == before + ([b] + after);
    SumConcat(before, [data[i]] + after);
    SumConcat(before, [b] + after);
    SumConcat([data[i]], after);
    SumConcat([b], after);
    SumOfOne(data[i]);
    SumOfOne(b);
  }

  /** C: `cbus_checksum`, accumulating in a byte that wraps around. */
  method ComputeC(data: seq<Byte>) returns (r: Byte)
    ensures r == Compute(data)
  {
    var sum: Byte := SumLoopC(data);
    r := (255 - sum + 1) % 256;
  }

  /** C: `cbus_verify_checksum`. */
  method VerifyC(data: seq<Byte>) returns (ok: bool)
    ensures ok == (|data| >= 2 && Validate(data))
  {
    if |data| < 2 {
      return false;
    }
    var sum: Byte := SumLoopC(data);
    AcceptedIffSumIsZero(data);
    ok := sum == 0;
  }

  /** The loop both C functions contain. */
  method SumLoopC(data: seq<Byte>) returns (sum: Byte)
    ensures sum == Sum(data) % 256
  {
    sum := 0;
    for i := 0 to |data|
      invariant sum == Sum(data[..i]) % 256
    {
      assert data[..i + 1] == data[..i] + [data[i]];
      SumConcat(data[..i], [data[i]]);
      SumOfOne(data[i]);
      sum := (sum + data[i]) % 256;
    }
    assert data[..|data|] == data;
  }

  /** The C and the Rust check differ on one message only: a lone zero byte. */
  lemma ChecksDifferOnlyOnLoneZero(data: seq<Byte>)
    ensures (|data| >= 2 && Validate(data)) != Validate(data) <==> data == [0]
  {
    if |data| == 1 {
      AcceptedIffSumIsZero(data);
      assert Sum(data) == data[0];
    }
  }
}
