/** Bytes and the searches the frame decoder makes over them.

    A byte is an integer below 256. Masks and shifts of the sources are written as division and
    remainder: `b & 0x1f` is `b % 32`, `b & 0xe0 == 0x80` is `b / 32 == 4`, `b >> 4` is `b / 16`,
    and an OR of fields that share no bit is a sum. */
module Bytes {
  import opened Wrappers

  type Byte = b: int | 0 <= b < 256

  const CR: Byte := 0x0D
  const LF: Byte := 0x0A
  const DOT: Byte := 0x2E
  const HASH: Byte := 0x23
  const PLUS: Byte := 0x2B
  const BANG: Byte := 0x21
  const TILDE: Byte := 0x7E
  const PIPE: Byte := 0x7C
  const QUERY: Byte := 0x3F
  const AT: Byte := 0x40
  const BACKSLASH: Byte := 0x5C

  /** The confirmation codes `h` .. `z`, then `g`, in the order they are handed out. */
  const CONFIRMATION_CODES: seq<Byte> :=
    [0x68, 0x69, 0x6A, 0x6B, 0x6C, 0x6D, 0x6E, 0x6F, 0x70, 0x71,
     0x72, 0x73, 0x74, 0x75, 0x76, 0x77, 0x78, 0x79, 0x7A, 0x67]

  /** The confirmation codes are exactly the bytes from `g` to `z`. */
  lemma ConfirmationCodesAreLetters()
    ensures forall b: Byte :: b in CONFIRMATION_CODES <==> 0x67 <= b <= 0x7A
  {
    forall b: Byte | 0x67 <= b <= 0x7A
      ensures b in CONFIRMATION_CODES
    {
      assert CONFIRMATION_CODES[(b - 0x68) % 20] == b;
    }
  }

  lemma Regroup<T>(a: seq<T>, b: seq<T>, c: seq<T>)
    ensures (a + b) + c == a + (b + c)
  {}

  /** Position of the first occurrence of `needle` in `haystack`. */
  function Find(haystack: seq<Byte>, needle: seq<Byte>): (r: Option<nat>)
    ensures r.Some? ==> r.value + |needle| <= |haystack|
  {
    FindFrom(haystack, needle, 0)
  }

  function FindFrom(haystack: seq<Byte>, needle: seq<Byte>, from: nat): (r: Option<nat>)
    ensures r.Some? ==> r.value + |needle| <= |haystack|
    decreases |haystack| - from
  {
    if from + |needle| > |haystack| then None
    else if haystack[from..from + |needle|] == needle then Some(from)
    else if from == |haystack| then None
    else FindFrom(haystack, needle, from + 1)
  }

  ghost predicate OccursAt(haystack: seq<Byte>, needle: seq<Byte>, i: int) {
    0 <= i && i + |needle| <= |haystack| && haystack[i..i + |needle|] == needle
  }

  ghost predicate FirstOccursAt(haystack: seq<Byte>, needle: seq<Byte>, i: int) {
    OccursAt(haystack, needle, i) && forall j | 0 <= j < i :: !OccursAt(haystack, needle, j)
  }

  lemma FindIsFirst(haystack: seq<Byte>, needle: seq<Byte>)
    requires needle != []
    ensures match Find(haystack, needle)
            case Some(i) => FirstOccursAt(haystack, needle, i)
            case None => forall i :: !OccursAt(haystack, needle, i)
  {
    FindFromIsFirst(haystack, needle, 0);
  }

  lemma {:induction false} FindFromIsFirst(haystack: seq<Byte>, needle: seq<Byte>, from: nat)
    requires needle != [] && forall j | 0 <= j < from :: !OccursAt(haystack, needle, j)
    ensures match FindFrom(haystack, needle, from)
            case Some(i) => FirstOccursAt(haystack, needle, i)
            case None => forall i :: !OccursAt(haystack, needle, i)
    decreases |haystack| - from
  {
    if from + |needle| <= |haystack| && haystack[from..from + |needle|] != needle {
      FindFromIsFirst(haystack, needle, from + 1);
    }
  }

  lemma FirstIsFound(haystack: seq<Byte>, needle: seq<Byte>, i: nat)
    requires needle != [] && FirstOccursAt(haystack, needle, i)
    ensures Find(haystack, needle) == Some(i)
  {
    FindIsFirst(haystack, needle);
  }

  /** Searching for a single byte. */
  lemma FindByte(haystack: seq<Byte>, b: Byte)
    ensures match Find(haystack, [b])
            case Some(i) => haystack[i] == b && forall j | 0 <= j < i :: haystack[j] != b
            case None => b !in haystack
  {
    FindIsFirst(haystack, [b]);
    forall i | 0 <= i < |haystack|
      ensures OccursAt(haystack, [b], i) <==> haystack[i] == b
    {
      assert haystack[i..i + 1] == [haystack[i]];
    }
  }

  lemma FirstByteIsFound(haystack: seq<Byte>, b: Byte, i: nat)
    requires i < |haystack| && haystack[i] == b && forall j | 0 <= j < i :: haystack[j] != b
    ensures Find(haystack, [b]) == Some(i)
  {
    FindByte(haystack, b);
  }

  /** A first occurrence stays the first one when bytes are appended. */
  lemma FindIgnoresTail(haystack: seq<Byte>, needle: seq<Byte>, tail: seq<Byte>)
    requires needle != [] && Find(haystack, needle).Some?
    ensures Find(haystack + tail, needle) == Find(haystack, needle)
  {
    var i := Find(haystack, needle).value;
    FindIsFirst(haystack, needle);
    forall j | 0 <= j <= i
      ensures OccursAt(haystack + tail, needle, j) <==> OccursAt(haystack, needle, j)
    {
      assert (haystack + tail)[j..j + |needle|] == haystack[j..j + |needle|];
    }
    FirstIsFound(haystack + tail, needle, i);
  }

  /** A text without the needle's first byte, followed by the needle, is searched through. */
  lemma FindAfter(text: seq<Byte>, needle: seq<Byte>, tail: seq<Byte>)
    requires needle != [] && needle[0] !in text
    ensures Find(text + needle + tail, needle) == Some(|text|)
  {
    var all := text + needle + tail;
    assert all[|text|..|text| + |needle|] == needle;
    forall j | 0 <= j < |text|
      ensures !OccursAt(all, needle, j)
    {
      assert all[j] == text[j] && text[j] in text;
      assert j + |needle| <= |all| ==> all[j..j + |needle|][0] == all[j];
    }
    FirstIsFound(all, needle, |text|);
  }
}
