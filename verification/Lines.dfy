/** Streams of lines: which bytes towards the PCI can be cut anywhere, and what arrives of the frames that either side
    sends. */
module Lines {
  import opened Bytes
  import opened Decoder
  import opened Framing
  import opened Packets
  import opened RoundTrip
  import opened Streams
  import opened Wrappers
  import Cals
  import Checksum
  import Hex

  // ---- Bare CALs, by their bytes --------------------------------------------------------

  /** The bytes begin with a complete CAL of a known kind. */
  predicate HasCal(data: seq<Byte>) {
    data != [] &&
    var length := data[0] % 32 + 1;
    || (data[0] / 32 == 4 && 2 <= length <= |data|)
    || (data[0] / 32 == 7 && 4 <= length <= |data| && (data[1] % 8 == 0 || (data[1] % 8 == 7 && length % 2 == 0)))
    || (data[0] == Cals.CAL_IDENTIFY && |data| >= 2)
    || (data[0] == Cals.CAL_RECALL && |data| >= 3)
  }

  lemma HasCalIff(data: seq<Byte>)
    ensures Cals.DecodeOne(data).Ok? <==> HasCal(data)
  {}

  /** The digits of a client line, without prefix and confirmation code; none for a line with another last character. */
  function DigitsOf(line: seq<Byte>): seq<Byte>
    requires line != []
  {
    var text := if line[0] == AT || line[0] == BACKSLASH then line[1..] else line;
    if text == [] then []
    else if Hex.IsDigit(text[|text| - 1]) then text
    else if text[|text| - 1] in CONFIRMATION_CODES then text[..|text| - 1]
    else []
  }

  /** A line without `\` whose bytes, less their checksum if one is due, are flags without the management bit and a
      CAL. */
  predicate IsBareCalLine(line: seq<Byte>, checksum: bool) {
    line != [] && line[0] != BACKSLASH &&
    match Hex.Decode(DigitsOf(line))
    case Err => false
    case Ok(raw) =>
      var due := checksum && line[0] != AT;
      && (due ==> Checksum.Validate(raw))
      && |raw| >= (if due then 2 else 1)
      && raw[0] / 32 % 2 == 0
      && HasCal(if due then raw[1..|raw| - 1] else raw[1..])
  }

  lemma BareCalLineIff(line: seq<Byte>, checksum: bool, consumed: nat)
    requires line != []
    ensures IsBareCal(DecodeFrame(line, checksum, true, false, consumed).packet) <==> IsBareCalLine(line, checksum)
  {
    match OpenEnvelope(line, checksum, true)
    case None => assert !IsBareCalLine(line, checksum);
    case Some(e) =>
      assert e.text == DigitsOf(line);
      TextIsBareCalIff(e, consumed);
  }

  lemma TextIsBareCalIff(e: Envelope, consumed: nat)
    ensures IsBareCal(DecodeText(e, true, false, consumed).packet) <==>
            e.bareCal &&
            match RawBytes(e.text, e.checksum, true)
            case Err => false
            case Ok(raw) => raw[0] / 32 % 2 == 0 && HasCal(raw[1..])
  {
    match RawBytes(e.text, e.checksum, true)
    case Err =>
    case Ok(raw) => HasCalIff(raw[1..]);
  }

  // ---- Streams that can be cut anywhere -------------------------------------------------

  lemma StartBounds(data: seq<Byte>)
    requires data != []
    ensures match StartToPci(data)
            case Token(d) => 0 < d.consumed <= |data| && !IsBareCal(d.packet)
            case Incomplete => true
            case Frame(end) => end < |data| && Find(data, [CR]) == Some(end)
  {
    if StartToPci(data) != Incomplete {
      StartToPciIsStable(data, []);
    }
  }

  /** Token by token and line by line, no bare CAL has anything behind its line. */
  predicate NothingBehindBareCals(data: seq<Byte>, checksum: bool)
    decreases |data|
  {
    data == [] ||
    (StartBounds(data);
     match StartToPci(data)
     case Token(d) => NothingBehindBareCals(data[d.consumed..], checksum)
     case Incomplete => true
     case Frame(end) =>
       if IsBareCalLine(data[..end], checksum) then |data| == end + 1
       else NothingBehindBareCals(data[end + 1..], checksum))
  }

  lemma ExactOneByOne(e: FrameEvent, p: Parsed)
    ensures AllExact(Cons(e, p).events) <==> Exact(e) && AllExact(p.events)
  {
    var events := Cons(e, p).events;
    assert forall i | 0 <= i < |p.events| :: events[i + 1] == p.events[i];
    assert events[0] == e;
  }

  lemma BareFrameIsExactIff(data: seq<Byte>, end: nat, n: nat, packet: Option<Packet>)
    requires Find(data, [CR]) == Some(end) && end < n <= |data| && IsBareCal(packet)
    ensures Exact(FrameEvent(packet, data[..n])) <==> n == end + 1
  {
    FindByte(data, CR);
    FirstByteIsFound(data[..n], CR, end);
  }

  /** What the parser of the whole stream makes of it is decided by the bytes alone. */
  lemma {:induction false} ExactIffNothingBehind(data: seq<Byte>, checksum: bool)
    ensures AllExact(Parse(DecoderOf(checksum, false), data).events) <==> NothingBehindBareCals(data, checksum)
    decreases |data|
  {
    var decode := DecoderOf(checksum, false);
    if data != [] && StartToPci(data) != Incomplete {
      StartBounds(data);
      var d := decode(data);
      var n := Streams.Min(d.consumed, |data|);
      if StartToPci(data).Frame? {
        var end := StartToPci(data).end;
        FrameConsumes(data, checksum, end);
        if IsBareCalLine(data[..end], checksum) {
          BareFrameIsExactIff(data, end, n, d.packet);
        }
      }
      ParseStep(decode, data, n);
      ExactOneByOne(FrameEvent(d.packet, data[..n]), Parse(decode, data[n..]));
      ExactIffNothingBehind(data[n..], checksum);
    }
  }

  lemma FrameConsumes(data: seq<Byte>, checksum: bool, end: nat)
    requires data != [] && StartToPci(data) == Frame(end) && end < |data|
    ensures var d := DecodePacket(data, checksum, true, false);
            && (IsBareCal(d.packet) <==> IsBareCalLine(data[..end], checksum))
            && (if IsBareCal(d.packet) then d.consumed >= end + 3 else d.consumed == end + 1)
  {
    if end > 0 {
      BareCalLineIff(data[..end], checksum, end + 1);
    }
  }

  /** However it is cut, a server stream gives the events of the whole, if nothing stands behind a bare CAL ... */
  lemma ServerMayBeCut(checksum: bool, chunks: seq<seq<Byte>>)
    requires NeverOverflows(DecoderOf(checksum, false), [], chunks)
    requires NothingBehindBareCals(Concat(chunks), checksum)
    ensures FeedAll(DecoderOf(checksum, false), [], chunks) == Parse(DecoderOf(checksum, false), Concat(chunks))
  {
    ExactIffNothingBehind(Concat(chunks), checksum);
    ServerFeedingIsParsing(checksum, chunks);
  }

  /** ... and only then: otherwise some cut changes what is reported. */
  lemma ServerMayBeCutIff(checksum: bool, data: seq<Byte>)
    ensures var decode := DecoderOf(checksum, false);
            (forall i | 0 <= i <= |data| :: Joined(decode, data[..i], data[i..]) == Parse(decode, data))
            <==> NothingBehindBareCals(data, checksum)
  {
    ExactIffNothingBehind(data, checksum);
    ServerCutsShowIffSwallowed(checksum, data);
  }

  // ---- Whole conversations --------------------------------------------------------------

  /** What is sent: an addressed packet of a client with the prefix before it, or a token, which has none. */
  datatype Sent = Sent(packet: Packet, prefix: Option<Byte>)

  predicate ClientMaySend(s: Sent, checksum: bool) {
    if s.packet.Addressed() then
      && Carried(s.packet) && ToPciMeta(s.packet.meta)
      && (s.prefix == Some(BACKSLASH) || (s.packet.DeviceManagement? && (s.prefix == None || s.prefix == Some(AT))))
      && s.packet.meta.checksum == (checksum && s.prefix != Some(AT))
    else (s.packet.Reset? || s.packet.SmartConnect?) && s.prefix == None
  }

  /** A packet of the PCI. A token may have an end of line behind it or not. */
  datatype Reply = Reply(packet: Packet, ended: bool)

  predicate PciMaySend(r: Reply, checksum: bool) {
    if r.packet.Addressed() then
      r.ended && Carried(r.packet) && FromPciMeta(r.packet.meta) && r.packet.meta.checksum == checksum
    else
      r.packet.PowerOn? || r.packet.PciError? || (r.packet.Confirmation? && r.packet.code in CONFIRMATION_CODES)
  }

  function TextOf(p: Packet): seq<Byte> {
    match EncodePacket(p)
    case Ok(text) => text
    case Err => []
  }

  /** The bytes on the wire; none for what cannot be sent. */
  function ClientBytes(s: Sent): seq<Byte> {
    if !s.packet.Addressed() then TextOf(s.packet) + [CR]
    else if ClientFrame(s.packet, s.prefix).Ok? then ClientFrame(s.packet, s.prefix).value
    else []
  }

  function PciBytes(r: Reply): seq<Byte> {
    TextOf(r.packet) + if r.ended then [CR, LF] else []
  }

  /** The events at the other end. A reset is reported before the end of its line, which is then ignored as empty; a
      power-up is reported for each of its two characters. */
  function ClientEvents(s: Sent): seq<FrameEvent> {
    if s.packet.Reset? then [FrameEvent(Some(Packet.Reset), [TILDE]), FrameEvent(None, [CR])]
    else [FrameEvent(Some(s.packet), ClientBytes(s))]
  }

  function PciEvents(r: Reply): seq<FrameEvent> {
    if r.packet.Addressed() then [FrameEvent(Some(r.packet), PciBytes(r))]
    else
      (if r.packet.PowerOn? then [FrameEvent(Some(PowerOn), [PLUS]), FrameEvent(Some(PowerOn), [PLUS])]
       else [FrameEvent(Some(r.packet), TextOf(r.packet))])
      + if r.ended then [FrameEvent(None, [CR, LF])] else []
  }

  function ClientStream(sent: seq<Sent>): seq<Byte> {
    if sent == [] then [] else ClientBytes(sent[0]) + ClientStream(sent[1..])
  }

  function PciStream(sent: seq<Reply>): seq<Byte> {
    if sent == [] then [] else PciBytes(sent[0]) + PciStream(sent[1..])
  }

  function AllClientEvents(sent: seq<Sent>): seq<FrameEvent> {
    if sent == [] then [] else ClientEvents(sent[0]) + AllClientEvents(sent[1..])
  }

  function AllPciEvents(sent: seq<Reply>): seq<FrameEvent> {
    if sent == [] then [] else PciEvents(sent[0]) + AllPciEvents(sent[1..])
  }

  lemma {:induction false} RawsConcat(a: seq<FrameEvent>, b: seq<FrameEvent>)
    ensures Raws(a + b) == Raws(a) + Raws(b)
  {
    if a == [] {
      assert a + b == b;
    } else {
      assert (a + b)[1..] == a[1..] + b;
      RawsConcat(a[1..], b);
    }
  }

  /** The event's bytes decode to its packet, whatever follows. */
  predicate ReadsAs(decode: Decode, e: FrameEvent, tail: seq<Byte>) {
    e.raw != [] && decode(e.raw + tail) == Decoded(e.packet, |e.raw|)
  }

  ghost predicate AlwaysReads(decode: Decode, e: FrameEvent) {
    forall tail :: ReadsAs(decode, e, tail)
  }

  lemma {:induction false} EventsAreParsed(decode: Decode, events: seq<FrameEvent>)
    requires forall e | e in events :: AlwaysReads(decode, e)
    ensures Parse(decode, Raws(events)) == Parsed(events, [])
  {
    if events != [] {
      var e, rest := events[0], Raws(events[1..]);
      assert e in events && ReadsAs(decode, e, rest);
      EventsAreParsed(decode, events[1..]);
      ParseStep(decode, e.raw + rest, |e.raw|);
      assert (e.raw + rest)[..|e.raw|] == e.raw && (e.raw + rest)[|e.raw|..] == rest;
    }
  }

  lemma ClientEventsSpell(s: Sent)
    ensures Raws(ClientEvents(s)) == ClientBytes(s)
  {
    var events := ClientEvents(s);
    if s.packet.Reset? {
      var ending := FrameEvent(None, [CR]);
      assert events[1..] == [ending] && [ending][1..] == [];
      assert Raws([ending]) == [CR];
      assert ClientBytes(s) == [TILDE] + [CR];
    } else {
      assert events[1..] == [];
    }
  }

  lemma ClientEventsRead(s: Sent, checksum: bool)
    requires ClientMaySend(s, checksum)
    ensures Raws(ClientEvents(s)) == ClientBytes(s) && AllExact(ClientEvents(s))
    ensures forall e | e in ClientEvents(s) :: AlwaysReads(DecoderOf(checksum, false), e)
  {
    ClientEventsSpell(s);
    forall e, tail | e in ClientEvents(s)
      ensures ReadsAs(DecoderOf(checksum, false), e, tail)
    {
      if s.packet.Addressed() {
        ToPciRoundTrip(s.packet, s.prefix, checksum, true, tail);
      } else if s.packet.SmartConnect? {
        assert ([PIPE, CR] + tail)[..2] == CONNECT;
      } else if e.packet.None? {
        FirstByteIsFound([CR] + tail, CR, 0);
        FindByte([CR] + tail, QUERY);
      }
    }
  }

  lemma PciTokenReads(r: Reply, e: FrameEvent, checksum: bool, tail: seq<Byte>)
    requires PciMaySend(r, checksum) && !r.packet.Addressed() && e in PciEvents(r)
    ensures ReadsAs(DecoderOf(checksum, true), e, tail)
  {
    if e.packet.None? {
      assert ([CR, LF] + tail)[0..2] == [CR, LF];
      FirstIsFound([CR, LF] + tail, [CR, LF], 0);
      ConfirmationCodesAreLetters();
    } else if r.packet.Confirmation? {
      ConfirmationCodesAreLetters();
    }
  }

  lemma PciEventsRead(r: Reply, checksum: bool)
    requires PciMaySend(r, checksum)
    ensures Raws(PciEvents(r)) == PciBytes(r)
    ensures forall e | e in PciEvents(r) :: AlwaysReads(DecoderOf(checksum, true), e)
  {
    forall e, tail | e in PciEvents(r)
      ensures ReadsAs(DecoderOf(checksum, true), e, tail)
    {
      if r.packet.Addressed() {
        FromPciRoundTrip(r.packet, true, tail);
      } else {
        PciTokenReads(r, e, checksum, tail);
      }
    }
    if !r.packet.Addressed() {
      var ending := if r.ended then [FrameEvent(None, [CR, LF])] else [];
      assert ending != [] ==> ending[1..] == [];
      var token := PciEvents(r)[..|PciEvents(r)| - |ending|];
      assert token[1..] == if r.packet.PowerOn? then [FrameEvent(Some(PowerOn), [PLUS])] else [];
      assert token[1..] != [] ==> token[1..][1..] == [];
      RawsConcat(token, ending);
    }
  }

  lemma {:induction false} ClientStreamParses(sent: seq<Sent>, checksum: bool)
    requires forall s | s in sent :: ClientMaySend(s, checksum)
    ensures Raws(AllClientEvents(sent)) == ClientStream(sent) && AllExact(AllClientEvents(sent))
    ensures forall e | e in AllClientEvents(sent) :: AlwaysReads(DecoderOf(checksum, false), e)
  {
    if sent != [] {
      assert sent[0] in sent;
      ClientStreamParses(sent[1..], checksum);
      ClientEventsRead(sent[0], checksum);
      RawsConcat(ClientEvents(sent[0]), AllClientEvents(sent[1..]));
    }
  }

  lemma {:induction false} PciStreamParses(sent: seq<Reply>, checksum: bool)
    requires forall r | r in sent :: PciMaySend(r, checksum)
    ensures Raws(AllPciEvents(sent)) == PciStream(sent)
    ensures forall e | e in AllPciEvents(sent) :: AlwaysReads(DecoderOf(checksum, true), e)
  {
    if sent != [] {
      assert sent[0] in sent;
      PciStreamParses(sent[1..], checksum);
      PciEventsRead(sent[0], checksum);
      RawsConcat(PciEvents(sent[0]), AllPciEvents(sent[1..]));
    }
  }

  /** Whatever a client sends, packets behind `\` or as device management and resets and shortcuts between them, a
      server reads exactly these, however the stream of their lines is cut: none of these lines is a bare CAL. */
  lemma ClientFramesArrive(sent: seq<Sent>, checksum: bool, chunks: seq<seq<Byte>>)
    requires forall s | s in sent :: ClientMaySend(s, checksum)
    requires Concat(chunks) == ClientStream(sent) && NeverOverflows(DecoderOf(checksum, false), [], chunks)
    ensures NothingBehindBareCals(Concat(chunks), checksum)
    ensures FeedAll(DecoderOf(checksum, false), [], chunks) == Parsed(AllClientEvents(sent), [])
  {
    ClientStreamParses(sent, checksum);
    EventsAreParsed(DecoderOf(checksum, false), AllClientEvents(sent));
    ExactIffNothingBehind(Concat(chunks), checksum);
    ServerFeedingIsParsing(checksum, chunks);
  }

  /** And whatever the PCI sends, packets, confirmations, errors and power-ups, the client reads exactly these. */
  lemma PciFramesArrive(sent: seq<Reply>, checksum: bool, chunks: seq<seq<Byte>>)
    requires forall r | r in sent :: PciMaySend(r, checksum)
    requires Concat(chunks) == PciStream(sent) && NeverOverflows(DecoderOf(checksum, true), [], chunks)
    ensures FeedAll(DecoderOf(checksum, true), [], chunks) == Parsed(AllPciEvents(sent), [])
  {
    PciStreamParses(sent, checksum);
    EventsAreParsed(DecoderOf(checksum, true), AllPciEvents(sent));
    ClientFeedingIsParsing(checksum, chunks);
  }
}
