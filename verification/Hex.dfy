/** Upper-case base 16, the text form of every addressed frame. */
module Hex {
  import opened Bytes
  import opened Wrappers

  /** The digit alphabet `0123456789ABCDEF`. */
  predicate IsDigit(c: Byte) {
    48 <= c <= 57 || 65 <= c <= 70
  }

  function Digit(n: int): (c: Byte)
    requires 0 <= n < 16
    ensures IsDigit(c)
  {
    if n < 10 then 48 + n else 55 + n
  }

  function DigitValue(c: Byte): (n: int)
    requires IsDigit(c)
    ensures 0 <= n < 16 && Digit(n) == c
  {
    if c <= 57 then c - 48 else c - 55
  }

  function Encode(data: seq<Byte>): (text: seq<Byte>)
    ensures |text| == 2 * |data|
    ensures AllDigits(text)
  {
    if data == [] then [] else [Digit(data[0] / 16), Digit(data[0] % 16)] + Encode(data[1..])
  }

  predicate AllDigits(text: seq<Byte>) {
    forall c | c in text :: IsDigit(c)
  }

  /** Base 16 decoding as the decoders make it: upper-case digits only, an even number of them. */
  function Decode(text: seq<Byte>): (r: Result<seq<Byte>>)
    ensures r.Ok? <==> AllDigits(text) && |text| % 2 == 0
    ensures r.Ok? ==> |text| == 2 * |r.value|
  {
    if text == [] then Ok([])
    else if |text| == 1 || !IsDigit(text[0]) || !IsDigit(text[1]) then
      assert text[0] in text && (|text| > 1 ==> text[1] in text);
      Err
    else
      assert text == [text[0], text[1]] + text[2..];
      match Decode(text[2..])
      case Err => Err
      case Ok(rest) => Ok([16 * DigitValue(text[0]) + DigitValue(text[1])] + rest)
  }

  lemma {:induction false} EncodeConcat(a: seq<Byte>, b: seq<Byte>)
    ensures Encode(a + b) == Encode(a) + Encode(b)
  {
    if a == [] {
      assert a + b == b;
    } else {
      assert (a + b)[0] == a[0] && (a + b)[1..] == a[1..] + b;
      EncodeConcat(a[1..], b);
    }
  }

  lemma {:induction false} DecodeInvertsEncode(data: seq<Byte>)
    ensures Decode(Encode(data)) == Ok(data)
  {
    if data != [] {
      DecodeInvertsEncode(data[1..]);
      assert Encode(data)[2..] == Encode(data[1..]);
      assert data == [data[0]] + data[1..];
    }
  }

  /** Every accepted text is the encoding of what it decodes to: one text per byte string. */
  lemma {:induction false} EncodeInvertsDecode(text: seq<Byte>)
    requires Decode(text).Ok?
    ensures Encode(Decode(text).value) == text
  {
    if text != [] {
      var rest := text[2..];
      assert Decode(rest).Ok? by {
        assert forall c | c in rest :: c in text;
      }
      EncodeInvertsDecode(rest);
      var all := Decode(text).value;
      assert all[1..] == Decode(rest).value;
      assert text == [text[0], text[1]] + rest;
    }
  }

  /** The byte at `i` is made of the digits at `2 * i` and `2 * i + 1`. */
  lemma {:induction false} DecodeAt(text: seq<Byte>, i: nat)
    requires Decode(text).Ok? && i < |Decode(text).value|
    ensures IsDigit(text[2 * i]) && IsDigit(text[2 * i + 1])
    ensures Decode(text).value[i] == 16 * DigitValue(text[2 * i]) + DigitValue(text[2 * i + 1])
  {
    assert text[2 * i] in text && text[2 * i + 1] in text;
    if i > 0 {
      assert forall c | c in text[2..] :: c in text;
      DecodeAt(text[2..], i - 1);
    }
  }
}
