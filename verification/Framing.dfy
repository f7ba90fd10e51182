/** The bounded receive buffer of both sides, and its refinement of the whole-stream parser. */
module Framing {
  import opened Bytes
  import opened Decoder
  import opened Packets
  import opened RoundTrip
  import opened Streams
  import opened Wrappers
  import Cals
  import Hex

  const MAX_BUFFER_SIZE := 256

  /** Decoding as one side does it; the client side receives from the PCI. */
  function DecoderOf(checksum: bool, fromPci: bool): Decode {
    (data: seq<Byte>) => DecodePacket(data, checksum, true, fromPci)
  }

  // ---- The frame decoder is prefix-stable -----------------------------------------------

  lemma DecodeIsStable(checksum: bool, fromPci: bool, data: seq<Byte>, tail: seq<Byte>)
    requires data != []
    requires (if fromPci then StartFromPci(data) else StartToPci(data)) != Incomplete
    ensures DecodePacket(data + tail, checksum, true, fromPci) == DecodePacket(data, checksum, true, fromPci)
  {
    if fromPci {
      StartFromPciIsStable(data, tail);
    } else {
      StartToPciIsStable(data, tail);
    }
    var start := if fromPci then StartFromPci(data) else StartToPci(data);
    if start.Frame? {
      assert (data + tail)[..start.end] == data[..start.end];
    }
  }

  lemma StartFromPciIsStable(data: seq<Byte>, tail: seq<Byte>)
    requires data != [] && StartFromPci(data) != Incomplete
    ensures StartFromPci(data + tail) == StartFromPci(data)
    ensures StartFromPci(data).Frame? ==> StartFromPci(data).end + 2 <= |data|
  {
    assert (data + tail)[0] == data[0] && (|data| >= 2 ==> (data + tail)[1] == data[1]);
    if Find(data, [CR, LF]).Some? {
      FindIgnoresTail(data, [CR, LF], tail);
    }
  }

  lemma StartToPciIsStable(data: seq<Byte>, tail: seq<Byte>)
    requires data != [] && StartToPci(data) != Incomplete
    ensures StartToPci(data + tail) == StartToPci(data)
    ensures StartToPci(data).Frame? ==> Find(data, [CR]) == Some(StartToPci(data).end)
  {
    FindByte(data, CR);
    assert (data + tail)[0] == data[0];
    if Find(data, [CR]).Some? {
      StartWithinLine(data, tail, Find(data, [CR]).value);
    } else {
      assert forall k | 0 <= k < |data| :: data[k] in data;
      assert |data| >= 2 ==> data[..2][1] == data[1];
      assert |data| >= 3 ==> data[..3][2] == data[2];
      assert StartsWith(data, NULL_TEXT) ==> (data + tail)[..4] == data[..4];
    }
  }

  lemma StartWithinLine(data: seq<Byte>, tail: seq<Byte>, cr: nat)
    requires Find(data, [CR]) == Some(cr) && cr < |data| && data[cr] == CR
    ensures StartToPci(data + tail) == StartToPci(data)
    ensures StartToPci(data).Frame? ==> StartToPci(data).end == cr
  {
    FindIgnoresTail(data, [CR], tail);
    TokenWithinLine(data, tail, cr, NULL_TEXT);
    TokenWithinLine(data, tail, cr, CONNECT);
    TokenWithinLine(data, tail, cr, CONNECT_TWICE);
    QueryWithinLine(data, tail, cr);
    StartDependsOn(data, data + tail, cr);
  }

  /** What the start of client data is decided by. */
  lemma StartDependsOn(data: seq<Byte>, other: seq<Byte>, cr: nat)
    requires data != [] && other != [] && data[0] == other[0]
    requires StartsWith(data, NULL_TEXT) == StartsWith(other, NULL_TEXT)
    requires StartsWith(data, CONNECT) == StartsWith(other, CONNECT)
    requires StartsWith(data, CONNECT_TWICE) == StartsWith(other, CONNECT_TWICE)
    requires Find(data, [CR]) == Find(other, [CR]) == Some(cr)
    requires Find(data, [QUERY]) == Find(other, [QUERY])
          || (Find(data, [QUERY]).None? && Find(other, [QUERY]).Some? && Find(other, [QUERY]).value > cr)
    ensures StartToPci(data) == StartToPci(other)
    ensures StartToPci(data).Frame? ==> StartToPci(data).end == cr
  {}

  /** Data with a complete line already decides which of the tokens it starts with. */
  lemma TokenWithinLine(data: seq<Byte>, tail: seq<Byte>, cr: nat, token: seq<Byte>)
    requires cr < |data| && data[cr] == CR
    requires forall k | 0 <= k < |token| - 1 :: token[k] != CR
    ensures StartsWith(data + tail, token) == StartsWith(data, token)
  {
    var all := data + tail;
    if |token| <= |data| {
      assert all[..|token|] == data[..|token|];
    } else if |token| <= |all| {
      assert all[..|token|][cr] == CR;
    }
  }

  lemma QueryWithinLine(data: seq<Byte>, tail: seq<Byte>, cr: nat)
    requires cr < |data| && data[cr] == CR
    ensures Find(data, [QUERY]).Some? ==> Find(data + tail, [QUERY]) == Find(data, [QUERY])
    ensures Find(data, [QUERY]).None? && Find(data + tail, [QUERY]).Some? ==> Find(data + tail, [QUERY]).value > cr
  {
    FindByte(data, QUERY);
    FindByte(data + tail, QUERY);
    if Find(data, [QUERY]).Some? {
      FindIgnoresTail(data, [QUERY], tail);
    } else {
      assert forall k | 0 <= k < |data| :: (data + tail)[k] == data[k] && data[k] in data;
    }
  }

  lemma DecoderIsStable(checksum: bool, fromPci: bool)
    ensures Stable(DecoderOf(checksum, fromPci))
  {
    forall data, tail
      ensures StableAt(DecoderOf(checksum, fromPci), data, tail)
    {
      if DecodePacket(data, checksum, true, fromPci).consumed > 0 {
        DecodeIsStable(checksum, fromPci, data, tail);
      }
    }
  }

  lemma DecoderIsAccountable(checksum: bool, fromPci: bool)
    ensures Accountable(DecoderOf(checksum, fromPci))
    ensures fromPci ==> NoBareCals(DecoderOf(checksum, fromPci))
    ensures !fromPci ==> LineSuffices(DecoderOf(checksum, fromPci))
  {
    var decode := DecoderOf(checksum, fromPci);
    forall data
      ensures AccountableAt(decode, data)
      ensures fromPci ==> !IsBareCal(decode(data).packet)
      ensures !fromPci ==> LineSufficesAt(decode, data)
    {
      if fromPci {
        ClientConsumes(checksum, data);
      } else {
        ServerConsumes(checksum, data);
      }
    }
  }

  lemma ClientConsumes(checksum: bool, data: seq<Byte>)
    ensures var d := DecodePacket(data, checksum, true, true);
            d.consumed <= |data| && !IsBareCal(d.packet)
  {
    if data != [] && StartFromPci(data) != Incomplete {
      StartFromPciIsStable(data, []);
    }
  }

  lemma ServerConsumes(checksum: bool, data: seq<Byte>)
    ensures var d := DecodePacket(data, checksum, true, false);
            (if IsBareCal(d.packet) then Find(data, [CR]).Some? && d.consumed >= Find(data, [CR]).value + 3
             else d.consumed <= |data|)
    ensures Find(data, [CR]).Some? ==> DecodePacket(data, checksum, true, false).consumed > 0
  {
    if data != [] && StartToPci(data) != Incomplete {
      StartToPciIsStable(data, []);
    }
  }

  // ---- Chunk boundaries -----------------------------------------------------------------

  /** One `feed` call, overflow included: too much data drops the whole buffer and reports nothing. */
  function FeedResult(decode: Decode, buf: seq<Byte>, data: seq<Byte>): Parsed {
    if Overflows(buf, data) then Parsed([], []) else Parse(decode, buf + data)
  }

  predicate Overflows(buf: seq<Byte>, data: seq<Byte>) {
    |data| > MAX_BUFFER_SIZE || |buf| + |data| > MAX_BUFFER_SIZE
  }

  /** A sequence of `feed` calls: all events reported, and the buffer at the end. */
  function FeedAll(decode: Decode, buf: seq<Byte>, chunks: seq<seq<Byte>>): Parsed
    decreases |chunks|
  {
    if chunks == [] then Parsed([], buf)
    else
      var one := FeedResult(decode, buf, chunks[0]);
      Then(one, FeedAll(decode, one.rest, chunks[1..]))
  }

  predicate NeverOverflows(decode: Decode, buf: seq<Byte>, chunks: seq<seq<Byte>>)
    decreases |chunks|
  {
    chunks == [] ||
    (!Overflows(buf, chunks[0]) && NeverOverflows(decode, FeedResult(decode, buf, chunks[0]).rest, chunks[1..]))
  }

  function EndOfLine(fromPci: bool): seq<Byte> {
    if fromPci then [CR, LF] else [CR]
  }

  /** A line that is open at position `i` ends among the next `limit + 1` bytes. */
  predicate EndsWithin(data: seq<Byte>, i: nat, limit: nat, fromPci: bool)
    requires i + limit < |data|
  {
    Find(data[i..i + limit + 1], EndOfLine(fromPci)).Some?
  }

  /** More than `limit` bytes in a row always contain an end of line. */
  predicate LinesWithin(data: seq<Byte>, limit: nat, fromPci: bool) {
    forall i: nat | i + limit < |data| :: EndsWithin(data, i, limit, fromPci)
  }

  lemma LinesOfSuffix(front: seq<Byte>, data: seq<Byte>, limit: nat, fromPci: bool)
    requires LinesWithin(front + data, limit, fromPci)
    ensures LinesWithin(data, limit, fromPci)
  {
    var all := front + data;
    forall i: nat | i + limit < |data|
      ensures EndsWithin(data, i, limit, fromPci)
    {
      assert EndsWithin(all, |front| + i, limit, fromPci);
      assert all[|front| + i..|front| + i + limit + 1] == data[i..i + limit + 1];
    }
  }

  lemma LineIsConsumed(buf: seq<Byte>, checksum: bool, fromPci: bool)
    requires buf != [] && Find(buf, EndOfLine(fromPci)).Some?
    ensures DecodePacket(buf, checksum, true, fromPci).consumed > 0
  {
    if !fromPci {
      ServerConsumes(checksum, buf);
    }
  }

  lemma LongHasLine(buf: seq<Byte>, data: seq<Byte>, limit: nat, fromPci: bool)
    requires LinesWithin(buf + data, limit, fromPci) && |buf| > limit
    ensures Find(buf, EndOfLine(fromPci)).Some?
  {
    assert EndsWithin(buf + data, 0, limit, fromPci);
    assert (buf + data)[0..limit + 1] == buf[..limit + 1];
    FindIgnoresTail(buf[..limit + 1], EndOfLine(fromPci), buf[limit + 1..]);
    assert buf[..limit + 1] + buf[limit + 1..] == buf;
  }

  lemma SettledIsShort(buf: seq<Byte>, data: seq<Byte>, limit: nat, checksum: bool, fromPci: bool)
    requires Settled(DecoderOf(checksum, fromPci), buf) && LinesWithin(buf + data, limit, fromPci)
    ensures |buf| <= limit
  {
    if |buf| > limit {
      LongHasLine(buf, data, limit, fromPci);
      LineIsConsumed(buf, checksum, fromPci);
    }
  }

  lemma {:induction false} ShortChunksFit(checksum: bool, fromPci: bool, buf: seq<Byte>, chunks: seq<seq<Byte>>,
                                          limit: nat)
    requires Settled(DecoderOf(checksum, fromPci), buf) && LinesWithin(buf + Concat(chunks), limit, fromPci)
    requires forall chunk | chunk in chunks :: |chunk| + limit <= MAX_BUFFER_SIZE
    ensures NeverOverflows(DecoderOf(checksum, fromPci), buf, chunks)
    decreases |chunks|
  {
    if chunks != [] {
      var decode, data, later := DecoderOf(checksum, fromPci), buf + chunks[0], Concat(chunks[1..]);
      var p := Parse(decode, data);
      assert chunks[0] in chunks && forall chunk | chunk in chunks[1..] :: chunk in chunks;
      SettledIsShort(buf, Concat(chunks), limit, checksum, fromPci);
      RestIsSettled(decode, data);
      BytesAreConserved(decode, data);
      Regroup(buf, chunks[0], later);
      Regroup(Raws(p.events), p.rest, later);
      LinesOfSuffix(Raws(p.events), p.rest + later, limit, fromPci);
      ShortChunksFit(checksum, fromPci, p.rest, chunks[1..], limit);
    }
  }

  /** The buffer never overflows while each chunk, with as many bytes as a line of the stream can have, fits. */
  lemma ShortChunksNeverOverflow(checksum: bool, fromPci: bool, chunks: seq<seq<Byte>>, limit: nat)
    requires LinesWithin(Concat(chunks), limit, fromPci)
    requires forall chunk | chunk in chunks :: |chunk| + limit <= MAX_BUFFER_SIZE
    ensures NeverOverflows(DecoderOf(checksum, fromPci), [], chunks)
  {
    assert [] + Concat(chunks) == Concat(chunks);
    ShortChunksFit(checksum, fromPci, [], chunks, limit);
  }

  lemma {:induction false} WithoutOverflowFeedingIsReading(decode: Decode, buf: seq<Byte>, chunks: seq<seq<Byte>>)
    requires NeverOverflows(decode, buf, chunks)
    ensures FeedAll(decode, buf, chunks) == ReadAll(decode, buf, chunks)
    decreases |chunks|
  {
    if chunks != [] {
      WithoutOverflowFeedingIsReading(decode, Parse(decode, buf + chunks[0]).rest, chunks[1..]);
    }
  }

  /** The client reports what a parser of the whole stream reports, wherever the stream is cut. */
  lemma ClientFeedingIsParsing(checksum: bool, chunks: seq<seq<Byte>>)
    requires NeverOverflows(DecoderOf(checksum, true), [], chunks)
    ensures FeedAll(DecoderOf(checksum, true), [], chunks) == Parse(DecoderOf(checksum, true), Concat(chunks))
  {
    var decode := DecoderOf(checksum, true);
    DecoderIsStable(checksum, true);
    DecoderIsAccountable(checksum, true);
    WithoutBareCalsAllIsExact(decode, Concat(chunks));
    WithoutOverflowFeedingIsReading(decode, [], chunks);
    assert [] + Concat(chunks) == Concat(chunks);
    ReadingIsParsing(decode, [], chunks);
  }

  /** Hence two ways of cutting one client stream are indistinguishable. */
  lemma ClientChunksDoNotMatter(checksum: bool, chunks: seq<seq<Byte>>, others: seq<seq<Byte>>)
    requires Concat(chunks) == Concat(others)
    requires NeverOverflows(DecoderOf(checksum, true), [], chunks)
    requires NeverOverflows(DecoderOf(checksum, true), [], others)
    ensures FeedAll(DecoderOf(checksum, true), [], chunks) == FeedAll(DecoderOf(checksum, true), [], others)
  {
    ClientFeedingIsParsing(checksum, chunks);
    ClientFeedingIsParsing(checksum, others);
  }

  /** The server does so as long as no bare CAL is followed by bytes it swallows ... */
  lemma ServerFeedingIsParsing(checksum: bool, chunks: seq<seq<Byte>>)
    requires NeverOverflows(DecoderOf(checksum, false), [], chunks)
    requires AllExact(Parse(DecoderOf(checksum, false), Concat(chunks)).events)
    ensures FeedAll(DecoderOf(checksum, false), [], chunks) == Parse(DecoderOf(checksum, false), Concat(chunks))
  {
    var decode := DecoderOf(checksum, false);
    DecoderIsStable(checksum, false);
    DecoderIsAccountable(checksum, false);
    WithoutOverflowFeedingIsReading(decode, [], chunks);
    assert [] + Concat(chunks) == Concat(chunks);
    ReadingIsParsing(decode, [], chunks);
  }

  /** ... and only then: otherwise some cut of the stream changes what is reported. */
  lemma ServerCutsShowIffSwallowed(checksum: bool, data: seq<Byte>)
    ensures var decode := DecoderOf(checksum, false);
            (forall i | 0 <= i <= |data| :: Joined(decode, data[..i], data[i..]) == Parse(decode, data))
            <==> AllExact(Parse(decode, data).events)
  {
    DecoderIsStable(checksum, false);
    DecoderIsAccountable(checksum, false);
    CutsShowIffSwallowed(DecoderOf(checksum, false), data);
  }

  /** The identify CAL `062102`, sent without a prefix. */
  const BARE_IDENTIFY: seq<Byte> := [0x30, 0x36, 0x32, 0x31, 0x30, 0x32]

  /** Swallowing happens: with anything behind it, this frame is not exact. */
  lemma BareCalSwallows(tail: seq<Byte>)
    requires tail != []
    ensures var decode := DecoderOf(false, false);
            !AllExact(Parse(decode, BARE_IDENTIFY + [CR] + tail).events)
  {
    var data := BARE_IDENTIFY + [CR] + tail;
    BareIdentifyConsumes(tail);
    FindAfter(BARE_IDENTIFY, [CR], tail);
    var n := Min(9, |data|);
    assert data[..n] == BARE_IDENTIFY + [CR] + data[7..n];
    FindAfter(BARE_IDENTIFY, [CR], data[7..n]);
    assert !Exact(Parse(DecoderOf(false, false), data).events[0]);
  }

  lemma BareIdentifyConsumes(tail: seq<Byte>)
    ensures DecodePacket(BARE_IDENTIFY + [CR] + tail, false, true, false).consumed == 9
    ensures IsBareCal(DecodePacket(BARE_IDENTIFY + [CR] + tail, false, true, false).packet)
  {
    IdentifyText();
    assert Hex.AllDigits(BARE_IDENTIFY);
    LineToPci(BARE_IDENTIFY, None, None, false, true, tail);
    assert Wrapped(BARE_IDENTIFY, None, None) == BARE_IDENTIFY;
  }

  lemma IdentifyText()
    ensures DecodeText(Envelope(BARE_IDENTIFY, false, true, None), true, false, 7)
         == Decoded(Some(BareCal(Cals.Identify(0x02))), 9)
  {
    var raw: seq<Byte> := [0x06, 0x21, 0x02];
    assert raw[1..] == [0x21, 0x02] && raw[1..][1..] == [0x02] && raw[1..][1..][1..] == [];
    assert Hex.Encode(raw) == BARE_IDENTIFY;
    Hex.DecodeInvertsEncode(raw);
    assert RawBytes(BARE_IDENTIFY, false, true) == Ok(raw);
  }

  // ---- The buffer -----------------------------------------------------------------------

  class FrameBuffer {
    var buf: seq<Byte>
    var checksum: bool
    const fromPci: bool

    predicate Valid()
      reads this
    {
      |buf| <= MAX_BUFFER_SIZE && Settled(DecoderOf(checksum, fromPci), buf)
    }

    /** Client side: checksums required. */
    constructor Client()
      ensures Valid() && buf == [] && checksum && fromPci
    {
      buf, checksum, fromPci := [], true, true;
    }

    /** Server side: no checksums until they are switched on. */
    constructor Server()
      ensures Valid() && buf == [] && !checksum && !fromPci
    {
      buf, checksum, fromPci := [], false, false;
    }

    /** Switching checksums does not disturb a partial frame. */
    method SetChecksum(on: bool)
      requires Valid()
      modifies this`checksum
      ensures Valid() && checksum == on
    {
      WaitingIgnoresChecksum(checksum, on, fromPci, buf);
      checksum := on;
    }

    method Clear()
      modifies this`buf
      ensures Valid() && buf == []
    {
      buf := [];
    }

    /** Feeds received bytes and returns the decoded frames. */
    method Feed(data: seq<Byte>) returns (out: seq<FrameEvent>)
      requires Valid()
      modifies this`buf
      ensures Valid()
      ensures Parsed(out, buf) == FeedResult(DecoderOf(checksum, fromPci), old(buf), data)
      ensures |old(buf)| + |data| > 256 ==> out == [] && buf == []
      ensures |old(buf)| + |data| <= 256 ==>
                && Parsed(out, buf) == Parse(DecoderOf(checksum, fromPci), old(buf) + data)
                && Raws(out) + buf == old(buf) + data
    {
      BytesAreConserved(DecoderOf(checksum, fromPci), buf + data);
      out := [];
      if |data| > MAX_BUFFER_SIZE || |buf| + |data| > MAX_BUFFER_SIZE {
        buf := [];
        return;
      }
      buf := buf + data;
      ghost var decode := DecoderOf(checksum, fromPci);
      ghost var whole := Parse(decode, buf);
      RestIsSettled(decode, buf);
      while true
        invariant |buf| <= MAX_BUFFER_SIZE
        invariant whole == Then(Parsed(out, buf), Parse(decode, buf))
        decreases |buf|
      {
        if buf == [] {
          break;
        }
        var decoded := DecodePacket(buf, checksum, true, fromPci);
        if decoded.consumed == 0 {
          break;
        }
        var n := Min(decoded.consumed, |buf|);
        var e := FrameEvent(decoded.packet, buf[..n]);
        assert decode(buf) == decoded;
        ParseStep(decode, buf, n);
        ThenCons(out, buf, e, buf[n..], Parse(decode, buf[n..]));
        out := out + [e];
        buf := buf[n..];
      }
      assert out + [] == out;
    }
  }

  lemma WaitingIgnoresChecksum(was: bool, on: bool, fromPci: bool, buf: seq<Byte>)
    requires Settled(DecoderOf(was, fromPci), buf)
    ensures Settled(DecoderOf(on, fromPci), buf)
  {}
}
