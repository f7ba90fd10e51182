/** Cutting a byte stream into chunks: what any prefix-stable decoder guarantees.

    The decoder is a parameter, so nothing here depends on the frame format. */
module Streams {
  import opened Bytes
  import opened Decoder
  import opened Packets
  import opened Wrappers

  type Decode = seq<Byte> -> Decoded

  /** A decoded frame with the bytes it took; no packet for input that is consumed and ignored. */
  datatype FrameEvent = FrameEvent(packet: Option<Packet>, raw: seq<Byte>)

  /** Events in order, and the bytes that wait for more. */
  datatype Parsed = Parsed(events: seq<FrameEvent>, rest: seq<Byte>)

  function Min(a: nat, b: nat): nat {
    if a < b then a else b
  }

  /** The whole-stream parse: decode from the front until nothing more is consumed. */
  function Parse(decode: Decode, data: seq<Byte>): Parsed {
    var d := decode(data);
    if data == [] || d.consumed == 0 then Parsed([], data)
    else
      var n := Min(d.consumed, |data|);
      Cons(FrameEvent(d.packet, data[..n]), Parse(decode, data[n..]))
  }

  function Cons(e: FrameEvent, p: Parsed): Parsed {
    Parsed([e] + p.events, p.rest)
  }

  function Then(p: Parsed, q: Parsed): Parsed {
    Parsed(p.events + q.events, q.rest)
  }

  lemma ConsThen(e: FrameEvent, p: Parsed, q: Parsed)
    ensures Then(Cons(e, p), q) == Cons(e, Then(p, q))
  {
    assert [e] + p.events + q.events == [e] + (p.events + q.events);
  }

  lemma ThenCons(out: seq<FrameEvent>, was: seq<Byte>, e: FrameEvent, buf: seq<Byte>, p: Parsed)
    ensures Then(Parsed(out, was), Cons(e, p)) == Then(Parsed(out + [e], buf), p)
  {
    assert out + ([e] + p.events) == out + [e] + p.events;
  }

  /** What a buffer that parsed `a` reports once `b` has arrived too. */
  function Joined(decode: Decode, a: seq<Byte>, b: seq<Byte>): Parsed {
    Then(Parse(decode, a), Parse(decode, Parse(decode, a).rest + b))
  }

  // ---- Byte conservation ----------------------------------------------------------------

  function Raws(events: seq<FrameEvent>): seq<Byte> {
    if events == [] then [] else events[0].raw + Raws(events[1..])
  }

  function Spelled(p: Parsed): seq<Byte> {
    Raws(p.events) + p.rest
  }

  lemma SpelledCons(e: FrameEvent, p: Parsed)
    ensures Spelled(Cons(e, p)) == e.raw + Spelled(p)
  {
    assert Cons(e, p).events[1..] == p.events;
    assert e.raw + Raws(p.events) + p.rest == e.raw + (Raws(p.events) + p.rest);
  }

  /** The bytes of the events, and the leftover, are the bytes of the stream. */
  lemma {:induction false} BytesAreConserved(decode: Decode, data: seq<Byte>)
    ensures Raws(Parse(decode, data).events) + Parse(decode, data).rest == data
    decreases |data|
  {
    var d := decode(data);
    if data != [] && d.consumed > 0 {
      var n := Min(d.consumed, |data|);
      BytesAreConserved(decode, data[n..]);
      ParseStep(decode, data, n);
      SpelledCons(FrameEvent(d.packet, data[..n]), Parse(decode, data[n..]));
      assert Spelled(Parse(decode, data)) == data[..n] + data[n..];
    }
  }

  /** What is left over would not parse further. */
  predicate Settled(decode: Decode, buf: seq<Byte>) {
    buf == [] || decode(buf).consumed == 0
  }

  lemma {:induction false} RestIsSettled(decode: Decode, data: seq<Byte>)
    ensures Settled(decode, Parse(decode, data).rest)
  {
    var d := decode(data);
    if data != [] && d.consumed > 0 {
      RestIsSettled(decode, data[Min(d.consumed, |data|)..]);
    }
  }

  // ---- What is asked of a decoder -------------------------------------------------------

  /** Once bytes are consumed, bytes that arrive later do not change what was decoded. */
  predicate StableAt(decode: Decode, data: seq<Byte>, tail: seq<Byte>) {
    decode(data).consumed > 0 ==> decode(data + tail) == decode(data)
  }

  ghost predicate Stable(decode: Decode) {
    forall data, tail :: StableAt(decode, data, tail)
  }

  /** Only a bare CAL consumes beyond its line, and it does so by 2 bytes or more. */
  predicate AccountableAt(decode: Decode, data: seq<Byte>) {
    var d := decode(data);
    if IsBareCal(d.packet) then Find(data, [CR]).Some? && d.consumed >= Find(data, [CR]).value + 3
    else d.consumed <= |data|
  }

  ghost predicate Accountable(decode: Decode) {
    forall data :: AccountableAt(decode, data)
  }

  /** A complete line is never waited on. */
  predicate LineSufficesAt(decode: Decode, data: seq<Byte>) {
    Find(data, [CR]).Some? ==> decode(data).consumed > 0
  }

  ghost predicate LineSuffices(decode: Decode) {
    forall data :: LineSufficesAt(decode, data)
  }

  ghost predicate NoBareCals(decode: Decode) {
    forall data :: !IsBareCal(decode(data).packet)
  }

  // ---- Chunk independence ---------------------------------------------------------------

  /** A frame that took nothing beyond its own line. Only a bare CAL can fail to be exact. */
  predicate Exact(e: FrameEvent) {
    IsBareCal(e.packet) ==> Find(e.raw, [CR]) == Some(|e.raw| - 1)
  }

  predicate AllExact(events: seq<FrameEvent>) {
    forall i | 0 <= i < |events| :: Exact(events[i])
  }

  lemma {:induction false} WithoutBareCalsAllIsExact(decode: Decode, data: seq<Byte>)
    requires NoBareCals(decode)
    ensures AllExact(Parse(decode, data).events)
  {
    var d := decode(data);
    if data != [] && d.consumed > 0 {
      WithoutBareCalsAllIsExact(decode, data[Min(d.consumed, |data|)..]);
    }
  }

  /** Parsing `a`, then the leftover with `b`, is parsing `a + b`. */
  lemma {:induction false} SplitAnywhere(decode: Decode, a: seq<Byte>, b: seq<Byte>)
    requires Stable(decode) && Accountable(decode)
    requires AllExact(Parse(decode, a + b).events)
    ensures Joined(decode, a, b) == Parse(decode, a + b)
    decreases |a|
  {
    var d := decode(a);
    if a == [] || d.consumed == 0 {
      assert [] + Parse(decode, a + b).events == Parse(decode, a + b).events;
    } else if d.consumed <= |a| {
      assert StableAt(decode, a, b);
      var e := FrameEvent(d.packet, a[..d.consumed]);
      var whole, rest := Parse(decode, a + b), Parse(decode, a[d.consumed..] + b);
      assert (a + b)[d.consumed..] == a[d.consumed..] + b;
      assert (a + b)[..d.consumed] == a[..d.consumed];
      assert whole == Cons(e, rest);
      assert forall i | 0 <= i < |rest.events| :: rest.events[i] == whole.events[i + 1];
      SplitAnywhere(decode, a[d.consumed..], b);
      JoinedStep(decode, e, a, a[d.consumed..], b);
    } else {
      assert StableAt(decode, a, b);
      OverrunEndsTheStream(decode, a, b);
    }
  }

  /** A frame counted longer than its buffer, yet exact on the whole stream, is the last of the stream. */
  lemma OverrunEndsTheStream(decode: Decode, a: seq<Byte>, b: seq<Byte>)
    requires Stable(decode) && Accountable(decode)
    requires a != [] && decode(a).consumed > |a| && decode(a + b) == decode(a)
    requires Exact(Parse(decode, a + b).events[0])
    ensures Joined(decode, a, b) == Parse(decode, a + b)
  {
    assert AccountableAt(decode, a);
    FindIgnoresTail(a, [CR], b);
    var raw := (a + b)[..Min(decode(a).consumed, |a + b|)];
    assert raw == a + b[..|raw| - |a|];
    FindIgnoresTail(a, [CR], b[..|raw| - |a|]);
    assert b == [] && a + b == a;
    assert Parse(decode, []) == Parsed([], []);
    var whole := Parse(decode, a);
    assert whole.events + [] == whole.events;
  }

  function Concat(chunks: seq<seq<Byte>>): seq<Byte> {
    if chunks == [] then [] else chunks[0] + Concat(chunks[1..])
  }

  /** The buffer of a reader that is handed the chunks one after the other. */
  function ReadAll(decode: Decode, buf: seq<Byte>, chunks: seq<seq<Byte>>): Parsed
    decreases |chunks|
  {
    if chunks == [] then Parsed([], buf)
    else
      var one := Parse(decode, buf + chunks[0]);
      Then(one, ReadAll(decode, one.rest, chunks[1..]))
  }

  lemma ExactInTheEnd(p: Parsed, q: Parsed)
    requires AllExact(Then(p, q).events)
    ensures AllExact(q.events)
  {
    assert forall i | 0 <= i < |q.events| :: q.events[i] == Then(p, q).events[|p.events| + i];
  }

  /** However the stream is cut, its events and its leftover are those of the whole. */
  lemma {:induction false} ReadingIsParsing(decode: Decode, buf: seq<Byte>, chunks: seq<seq<Byte>>)
    requires Stable(decode) && Accountable(decode) && Settled(decode, buf)
    requires AllExact(Parse(decode, buf + Concat(chunks)).events)
    ensures ReadAll(decode, buf, chunks) == Parse(decode, buf + Concat(chunks))
    decreases |chunks|
  {
    if chunks == [] {
      assert buf + Concat(chunks) == buf;
    } else {
      var data, later := buf + chunks[0], Concat(chunks[1..]);
      Regroup(buf, chunks[0], later);
      SplitAnywhere(decode, data, later);
      var one := Parse(decode, data);
      RestIsSettled(decode, data);
      ExactInTheEnd(one, Parse(decode, one.rest + later));
      ReadingIsParsing(decode, one.rest, chunks[1..]);
    }
  }

  // ---- When a cut shows -----------------------------------------------------------------

  /** With a complete line present, cutting the data behind it does not change the first frame. */
  lemma CutBehindFirstLine(decode: Decode, data: seq<Byte>, i: nat)
    requires Stable(decode) && LineSuffices(decode)
    requires i <= |data| && Find(data, [CR]).Some? && Find(data, [CR]).value < i
    ensures decode(data[..i]) == decode(data) && decode(data).consumed > 0
  {
    FindByte(data, CR);
    var cr := Find(data, [CR]).value;
    FirstByteIsFound(data[..i], CR, cr);
    assert data == data[..i] + data[i..];
    assert LineSufficesAt(decode, data[..i]) && StableAt(decode, data[..i], data[i..]);
  }

  lemma ExactAfterwards(e: FrameEvent, p: Parsed)
    requires Exact(e) && AllExact(p.events)
    ensures AllExact(Cons(e, p).events)
  {}

  /** A frame that swallowed bytes of the next line betrays itself when the stream is cut at its end. */
  lemma {:induction false} SwallowingShows(decode: Decode, data: seq<Byte>) returns (i: nat)
    requires Stable(decode) && Accountable(decode) && LineSuffices(decode)
    requires !AllExact(Parse(decode, data).events)
    ensures i <= |data| && Find(data, [CR]).Some? && Find(data, [CR]).value < i
    ensures Joined(decode, data[..i], data[i..]) != Parse(decode, data)
    decreases |data|
  {
    var n := Min(decode(data).consumed, |data|);
    var e := FrameEvent(decode(data).packet, data[..n]);
    if Exact(e) {
      ParseStep(decode, data, n);
      if AllExact(Parse(decode, data[n..]).events) {
        ExactAfterwards(e, Parse(decode, data[n..]));
      }
      var j := SwallowingShows(decode, data[n..]);
      i := n + j;
      FirstLineOfSuffix(data, n, j);
      CutBehindFirstLine(decode, data, i);
      Slices(data, n, j);
      CutShowsLater(decode, data, n, data[..i], data[n..][..j], data[i..]);
    } else {
      i := InexactShows(decode, data, n);
    }
  }

  /** A cut right behind the line of a frame that took more than it. */
  lemma InexactShows(decode: Decode, data: seq<Byte>, n: nat) returns (i: nat)
    requires Stable(decode) && Accountable(decode) && LineSuffices(decode)
    requires data != [] && decode(data).consumed > 0 && n == Min(decode(data).consumed, |data|)
    requires !Exact(FrameEvent(decode(data).packet, data[..n]))
    ensures i <= |data| && Find(data, [CR]).Some? && Find(data, [CR]).value < i
    ensures Joined(decode, data[..i], data[i..]) != Parse(decode, data)
  {
    assert AccountableAt(decode, data);
    i := Find(data, [CR]).value + 1;
    InexactIsLonger(data, n);
    CutBehindFirstLine(decode, data, i);
    ParseStep(decode, data[..i], i);
    ParseStep(decode, data, n);
    FirstsDiffer(FrameEvent(decode(data).packet, data[..i]), Parse(decode, data[..i][i..]),
                 Parse(decode, Parse(decode, data[..i]).rest + data[i..]),
                 FrameEvent(decode(data).packet, data[..n]), Parse(decode, data[n..]));
  }

  lemma FirstsDiffer(e: FrameEvent, p: Parsed, q: Parsed, f: FrameEvent, r: Parsed)
    requires |e.raw| != |f.raw|
    ensures Then(Cons(e, p), q) != Cons(f, r)
  {
    assert Then(Cons(e, p), q).events[0] == e && Cons(f, r).events[0] == f;
  }

  /** A cut that shows behind the first frame shows on the whole data. */
  lemma CutShowsLater(decode: Decode, data: seq<Byte>, n: nat, head: seq<Byte>, after: seq<Byte>, tail: seq<Byte>)
    requires data != [] && n == Min(decode(data).consumed, |data|)
    requires decode(head) == decode(data) && decode(data).consumed > 0
    requires n <= |head| <= |data| && head[..n] == data[..n] && head[n..] == after
    requires Joined(decode, after, tail) != Parse(decode, data[n..])
    ensures Joined(decode, head, tail) != Parse(decode, data)
  {
    var e := FrameEvent(decode(data).packet, data[..n]);
    ParseStep(decode, head, n);
    ParseStep(decode, data, n);
    ShowsBehind(decode, e, head, after, tail, Parse(decode, data[n..]));
  }

  lemma ShowsBehind(decode: Decode, e: FrameEvent, head: seq<Byte>, after: seq<Byte>, tail: seq<Byte>, whole: Parsed)
    requires Parse(decode, head) == Cons(e, Parse(decode, after)) && Joined(decode, after, tail) != whole
    ensures Joined(decode, head, tail) != Cons(e, whole)
  {
    JoinedStep(decode, e, head, after, tail);
    ConsIsInjective(e, Joined(decode, after, tail), whole);
  }

  lemma Slices(data: seq<Byte>, n: nat, j: nat)
    requires n + j <= |data|
    ensures data[..n + j][n..] == data[n..][..j] && data[..n + j][..n] == data[..n]
    ensures data[n + j..] == data[n..][j..]
  {}

  lemma JoinedStep(decode: Decode, e: FrameEvent, head: seq<Byte>, after: seq<Byte>, tail: seq<Byte>)
    requires Parse(decode, head) == Cons(e, Parse(decode, after))
    ensures Joined(decode, head, tail) == Cons(e, Joined(decode, after, tail))
  {
    var p := Parse(decode, after);
    ConsThen(e, p, Parse(decode, p.rest + tail));
  }

  lemma ParseStep(decode: Decode, data: seq<Byte>, n: nat)
    requires data != [] && decode(data).consumed > 0 && n == Min(decode(data).consumed, |data|)
    ensures Parse(decode, data) == Cons(FrameEvent(decode(data).packet, data[..n]), Parse(decode, data[n..]))
  {}

  lemma ConsIsInjective(e: FrameEvent, p: Parsed, q: Parsed)
    ensures Cons(e, p) == Cons(e, q) <==> p == q
  {
    assert Cons(e, p).events[1..] == p.events && Cons(e, q).events[1..] == q.events;
  }

  lemma InexactIsLonger(data: seq<Byte>, n: nat)
    requires n <= |data| && Find(data, [CR]).Some? && n > Find(data, [CR]).value
    requires Find(data[..n], [CR]) != Some(n - 1)
    ensures n > Find(data, [CR]).value + 1
  {
    FindByte(data, CR);
    var cr := Find(data, [CR]).value;
    FirstByteIsFound(data[..n], CR, cr);
  }

  lemma FirstLineOfSuffix(data: seq<Byte>, n: nat, j: nat)
    requires n <= |data| && Find(data[n..], [CR]).Some? && Find(data[n..], [CR]).value < j
    ensures Find(data, [CR]).Some? && Find(data, [CR]).value < n + j
  {
    FindByte(data[n..], CR);
    FindByte(data, CR);
    var k := Find(data[n..], [CR]).value;
    assert data[n + k] == data[n..][k];
  }

  /** No cut shows exactly when no bare CAL took bytes of the line behind it. */
  lemma CutsShowIffSwallowed(decode: Decode, data: seq<Byte>)
    requires Stable(decode) && Accountable(decode) && LineSuffices(decode)
    ensures (forall i | 0 <= i <= |data| :: Joined(decode, data[..i], data[i..]) == Parse(decode, data))
       <==> AllExact(Parse(decode, data).events)
  {
    if AllExact(Parse(decode, data).events) {
      forall i | 0 <= i <= |data|
        ensures Joined(decode, data[..i], data[i..]) == Parse(decode, data)
      {
        assert data[..i] + data[i..] == data;
        SplitAnywhere(decode, data[..i], data[i..]);
      }
    } else {
      var i := SwallowingShows(decode, data);
    }
  }
}
