/** The firmware's sending side: the throttled command queue, and what a bridge at the other end makes of it. */
module Firmware {
  import opened Bytes
  import opened CProtocol
  import opened Wrappers
  import Bridge
  import Checksum
  import Hex
  import Sals

  const QUEUE_SIZE := 32
  const MAX_COMMAND := 60
  const CODE_COUNT := 20

  /** The millisecond clock, 32 bits wide. */
  type Millis = t: int | 0 <= t < 0x1_0000_0000

  // ---- The ring -------------------------------------------------------------------------

  /** A ring with one slot kept free: a first-in first-out queue of capacity 31. */
  class CommandQueue {
    const slots: array<seq<Byte>>
    var head: nat
    var tail: nat

    ghost predicate Valid()
      reads this, slots
    {
      && slots.Length == QUEUE_SIZE && head < QUEUE_SIZE && tail < QUEUE_SIZE
      && forall c | c in Contents() :: |c| <= MAX_COMMAND
    }

    ghost function Contents(): (c: seq<seq<Byte>>)
      requires slots.Length == QUEUE_SIZE && head < QUEUE_SIZE && tail < QUEUE_SIZE
      reads this, slots
      ensures |c| <= QUEUE_SIZE - 1
    {
      Between(slots[..], head, tail)
    }

    constructor ()
      ensures Valid() && fresh(slots) && Contents() == []
    {
      slots := new seq<Byte>[QUEUE_SIZE](i => []);
      head, tail := 0, 0;
    }

    predicate Empty()
      requires Valid()
      reads this, slots
      ensures Empty() <==> Contents() == []
    {
      head == tail
    }

    predicate Full()
      requires Valid()
      reads this, slots
      ensures Full() <==> |Contents()| == QUEUE_SIZE - 1
    {
      (tail + 1) % QUEUE_SIZE == head
    }

    /** Appends a packet; too long a packet, or one for which there is no room, is dropped. */
    method Enqueue(packet: seq<Byte>)
      requires Valid()
      modifies this, slots
      ensures Valid()
      ensures Contents() == old(Contents()) + if |packet| <= 60 && |old(Contents())| < 31 then [packet] else []
    {
      if |packet| > MAX_COMMAND || Full() {
        return;
      }
      ghost var ring, contents := slots[..], Contents();
      var next := (tail + 1) % QUEUE_SIZE;
      LastOfRing(ring, head, tail, next, packet);
      AllStayShort(contents, packet);
      slots[tail] := packet;
      assert slots[..] == ring[tail := packet];
      tail := next;
      assert Contents() == contents + [packet];
    }

    method Dequeue() returns (packet: seq<Byte>)
      requires Valid() && !Empty()
      modifies this`head
      ensures Valid()
      ensures [packet] + Contents() == old(Contents())
    {
      packet := slots[head];
      FirstOfRing(slots[..], head, tail, (head + 1) % QUEUE_SIZE);
      head := (head + 1) % QUEUE_SIZE;
    }
  }

  /** What lies from one position of a ring up to another, around its end if need be. */
  function Between(ring: seq<seq<Byte>>, head: nat, tail: nat): (c: seq<seq<Byte>>)
    requires |ring| == QUEUE_SIZE && head < QUEUE_SIZE && tail < QUEUE_SIZE
    ensures |c| == if head <= tail then tail - head else QUEUE_SIZE - head + tail
  {
    if head <= tail then ring[head..tail] else ring[head..] + ring[..tail]
  }

  lemma FirstOfRing(ring: seq<seq<Byte>>, head: nat, tail: nat, next: nat)
    requires |ring| == QUEUE_SIZE && head < QUEUE_SIZE && tail < QUEUE_SIZE && head != tail
    requires next == if head == QUEUE_SIZE - 1 then 0 else head + 1
    ensures Between(ring, head, tail) == [ring[head]] + Between(ring, next, tail)
  {
    if head < tail {
      FirstOfSlice(ring, head, tail);
    } else if head == QUEUE_SIZE - 1 {
      FirstAtEnd(ring, tail);
    } else {
      FirstWrapped(ring, head, tail);
    }
  }

  lemma FirstOfSlice(ring: seq<seq<Byte>>, from: nat, to: nat)
    requires from < to <= |ring|
    ensures ring[from..to] == [ring[from]] + ring[from + 1..to]
  {}

  lemma FirstAtEnd(ring: seq<seq<Byte>>, tail: nat)
    requires tail < |ring|
    ensures ring[|ring| - 1..] + ring[..tail] == [ring[|ring| - 1]] + ring[0..tail]
  {
    assert ring[|ring| - 1..] == [ring[|ring| - 1]];
  }

  lemma FirstWrapped(ring: seq<seq<Byte>>, head: nat, tail: nat)
    requires tail < |ring| && head < |ring|
    ensures ring[head..] + ring[..tail] == [ring[head]] + (ring[head + 1..] + ring[..tail])
  {
    assert ring[head..] == [ring[head]] + ring[head + 1..];
  }

  lemma LastOfRing(ring: seq<seq<Byte>>, head: nat, tail: nat, next: nat, packet: seq<Byte>)
    requires |ring| == QUEUE_SIZE && head < QUEUE_SIZE && tail < QUEUE_SIZE
    requires next == (if tail == QUEUE_SIZE - 1 then 0 else tail + 1) && next != head
    ensures Between(ring[tail := packet], head, next) == Between(ring, head, tail) + [packet]
  {
    if head > tail {
      LastWrapped(ring, head, tail, packet);
    } else if tail == QUEUE_SIZE - 1 {
      LastAtEnd(ring, head, packet);
    } else {
      LastOfSlice(ring, head, tail, packet);
    }
  }

  lemma AllStayShort(contents: seq<seq<Byte>>, packet: seq<Byte>)
    requires |packet| <= MAX_COMMAND && forall c | c in contents :: |c| <= MAX_COMMAND
    ensures forall c | c in contents + [packet] :: |c| <= MAX_COMMAND
  {}

  lemma LastOfSlice(ring: seq<seq<Byte>>, from: nat, to: nat, packet: seq<Byte>)
    requires from <= to < |ring|
    ensures ring[to := packet][from..to + 1] == ring[from..to] + [packet]
  {}

  lemma LastAtEnd(ring: seq<seq<Byte>>, head: nat, packet: seq<Byte>)
    requires head < |ring|
    ensures ring[|ring| - 1 := packet][head..] + ring[|ring| - 1 := packet][..0]
         == ring[head..|ring| - 1] + [packet]
  {}

  lemma LastWrapped(ring: seq<seq<Byte>>, head: nat, tail: nat, packet: seq<Byte>)
    requires tail < head < |ring|
    ensures ring[tail := packet][head..] + ring[tail := packet][..tail + 1]
         == (ring[head..] + ring[..tail]) + [packet]
  {}

  predicate Accepts(queue: seq<seq<Byte>>, packet: seq<Byte>) {
    |packet| <= MAX_COMMAND && |queue| < QUEUE_SIZE - 1
  }

  // ---- Lighting commands ----------------------------------------------------------------

  datatype Light = On(group: Byte) | Off(group: Byte) | Ramp(group: Byte, level: Byte, rate: Byte)

  function Packet(app: Byte, light: Light): (p: seq<Byte>)
    ensures 5 <= |p| <= 6
  {
    match light
    case On(group) => [0x05, app, 0x00, 0x79, group]
    case Off(group) => [0x05, app, 0x00, 0x01, group]
    case Ramp(group, level, rate) => [0x05, app, 0x00, rate, group, level]
  }

  function TargetLevel(light: Light): Byte {
    match light
    case On(_) => 255
    case Off(_) => 0
    case Ramp(_, level, _) => level
  }

  /** The line a packet travels in, without its terminator: checksum, digits, confirmation code. */
  function Line(packet: seq<Byte>, code: Byte): seq<Byte> {
    [BACKSLASH] + Hex.Encode(Checksum.Append(packet)) + [code]
  }

  /** The levels of a bridge that has received the line. */
  function Delivered(levels: seq<Byte>, packet: seq<Byte>, code: Byte): (r: seq<Byte>)
    requires |levels| == Bridge.MAX_GROUPS
    ensures |r| == Bridge.MAX_GROUPS
  {
    match Command(Line(packet, code))
    case None => levels
    case Some(f) => Bridge.LevelsAfter(levels, f)
  }

  /** A line is parsed back into the packet, its checksum still on it, and the code. */
  lemma LineIsParsed(packet: seq<Byte>, code: Byte)
    requires code in CONFIRMATION_CODES && 1 <= |packet| <= MAX_COMMAND
    ensures var f := CommandFields(code, Checksum.Append(packet));
            Command(Line(packet, code)) == if f.kind == Unknown then None else Some(f)
  {
    var bytes := Checksum.Append(packet);
    var line := Line(packet, code);
    Hex.DecodeInvertsEncode(bytes);
    HexDecodersAgree(Hex.Encode(bytes), MAX_PACKET_SIZE);
    assert line[1..|line| - 1] == Hex.Encode(bytes);
    LineIsEscaped(line, code, bytes);
  }

  lemma LineIsEscaped(line: seq<Byte>, code: Byte, bytes: seq<Byte>)
    requires |line| >= 3 && line[0] == BACKSLASH && line[|line| - 1] == code && code in CONFIRMATION_CODES
    requires bytes != [] && HexValue(line[1..|line| - 1], MAX_PACKET_SIZE) == Some(bytes)
    ensures var f := CommandFields(code, bytes);
            Command(line) == if f.kind == Unknown then None else Some(f)
  {
    assert |line| >= 6 ==> line[..2][0] == BACKSLASH;
    assert |line| >= 7 ==> line[..3][0] == BACKSLASH;
  }

  /** What the parser makes of a lighting packet of the default application with its checksum still on. */
  lemma LightIsRecognised(light: Light, code: Byte, sum: Byte)
    requires light.Ramp? ==>
               IsRampRate(light.rate) && light.rate !in {Sals.LIGHT_ON, Sals.LIGHT_OFF, Sals.LIGHT_TERMINATE_RAMP}
    ensures var f := CommandFields(code, Packet(APP_LIGHTING, light) + [sum]);
            && f.group == light.group
            && (light.On? ==> f.kind == LightingOn)
            && (light.Off? ==> f.kind == LightingOff)
            && (light.Ramp? ==> f.kind == LightingRamp && f.level == light.level)
  {}

  /** A bridge applies a lighting command of the default application, whatever its confirmation code ... */
  lemma DefaultApplicationIsApplied(levels: seq<Byte>, light: Light, code: Byte)
    requires |levels| == Bridge.MAX_GROUPS && code in CONFIRMATION_CODES
    requires light.Ramp? ==> IsRampRate(light.rate)
    ensures Delivered(levels, Packet(APP_LIGHTING, light), code) == levels[light.group := TargetLevel(light)]
  {
    var packet := Packet(APP_LIGHTING, light);
    DeliveredIsApplied(levels, packet, code);
    if light.Ramp? {
      RampRatesAreNoCommands(light.rate);
    }
    LightIsRecognised(light, code, Checksum.Compute(packet));
  }

  lemma RampRatesAreNoCommands(rate: Byte)
    requires IsRampRate(rate)
    ensures rate !in {Sals.LIGHT_ON, Sals.LIGHT_OFF, Sals.LIGHT_TERMINATE_RAMP}
  {
    Sals.RateCodes(rate);
  }

  lemma DeliveredIsApplied(levels: seq<Byte>, packet: seq<Byte>, code: Byte)
    requires |levels| == Bridge.MAX_GROUPS && code in CONFIRMATION_CODES && 1 <= |packet| <= MAX_COMMAND
    ensures Delivered(levels, packet, code) == Bridge.LevelsAfter(levels, CommandFields(code, Checksum.Append(packet)))
  {
    LineIsParsed(packet, code);
  }

  lemma OtherIsNoLight(app: Byte, light: Light, code: Byte, sum: Byte)
    requires app != APP_LIGHTING
    ensures CommandFields(code, Packet(app, light) + [sum]).kind in {Unknown, StatusRequest, ClockUpdate}
  {}

  /** ... and ignores the same command of any other application. */
  lemma OtherApplicationsAreIgnored(levels: seq<Byte>, app: Byte, light: Light, code: Byte)
    requires |levels| == Bridge.MAX_GROUPS && code in CONFIRMATION_CODES && app != APP_LIGHTING
    ensures Delivered(levels, Packet(app, light), code) == levels
  {
    var packet := Packet(app, light);
    DeliveredIsApplied(levels, packet, code);
    OtherIsNoLight(app, light, code, Checksum.Compute(packet));
  }

  // ---- The queue and the bridge together ------------------------------------------------

  /** A packet the firmware queues for a light of the default application. */
  ghost predicate IsLightPacket(packet: seq<Byte>) {
    exists light: Light ::
      packet == Packet(APP_LIGHTING, light) && (light.Ramp? ==> IsRampRate(light.rate))
  }

  /** The bridge's levels once everything queued has arrived. Any confirmation code will do. */
  function Replay(queue: seq<seq<Byte>>, levels: seq<Byte>): (r: seq<Byte>)
    requires |levels| == Bridge.MAX_GROUPS
    ensures |r| == Bridge.MAX_GROUPS
    decreases |queue|
  {
    if queue == [] then levels else Replay(queue[1..], Delivered(levels, queue[0], 0x68))
  }

  class Sender {
    const queue: CommandQueue
    const levels: array<Byte>
    var confIndex: nat
    var lastSend: Millis

    ghost predicate Valid()
      reads this, queue, queue.slots, levels
    {
      queue.Valid() && levels.Length == Bridge.MAX_GROUPS && confIndex < CODE_COUNT
    }

    constructor ()
      ensures Valid() && fresh(queue) && fresh(queue.slots) && fresh(levels)
      ensures queue.Contents() == [] && levels[..] == seq(Bridge.MAX_GROUPS, i => 0)
      ensures confIndex == 0 && lastSend == 0
    {
      queue := new CommandQueue();
      levels := new Byte[Bridge.MAX_GROUPS](i => 0);
      confIndex, lastSend := 0, 0;
    }

    /** The codes are handed out round robin. */
    method NextConfCode() returns (code: Byte)
      requires confIndex < CODE_COUNT
      modifies this`confIndex
      ensures code == CONFIRMATION_CODES[old(confIndex)]
      ensures confIndex == (old(confIndex) + 1) % CODE_COUNT
    {
      code := CONFIRMATION_CODES[confIndex];
      confIndex := (confIndex + 1) % CODE_COUNT;
    }

    /** Queues the command and records its level, the latter even if the queue has no room. */
    method SendLight(app: Byte, light: Light)
      requires Valid()
      modifies queue, queue.slots, levels
      ensures Valid()
      ensures levels[..] == old(levels[..])[light.group := TargetLevel(light)]
      ensures queue.Contents() ==
              if |old(queue.Contents())| < 31 then old(queue.Contents()) + [Packet(app, light)]
              else old(queue.Contents())
    {
      queue.Enqueue(Packet(app, light));
      levels[light.group] := TargetLevel(light);
    }

    /** Sends the oldest command if 200 ms have passed since the last one; returns what goes onto the wire.
        While the CNI is not connected the command is dropped. */
    method ProcessQueue(now: Millis, connected: bool, sentAt: Millis) returns (wire: seq<Byte>)
      requires Valid()
      modifies this`confIndex, this`lastSend, queue`head
      ensures Valid()
      ensures old(queue.Contents()) == [] || (now - old(lastSend)) % 0x1_0000_0000 < 200 ==>
                wire == [] && unchanged(this) && unchanged(queue)
      ensures old(queue.Contents()) != [] && (now - old(lastSend)) % 0x1_0000_0000 >= 200 ==>
                old(queue.Contents()) == [old(queue.Contents())[0]] + queue.Contents() &&
                (if !connected then wire == [] && unchanged(this)
                 else wire == Line(old(queue.Contents())[0], CONFIRMATION_CODES[old(confIndex)]) + [CR] &&
                      confIndex == (old(confIndex) + 1) % CODE_COUNT && lastSend == sentAt)
    {
      wire := [];
      if queue.Empty() {
        return;
      }
      if (now - lastSend) % 0x1_0000_0000 < 200 {
        return;
      }
      var packet := queue.Dequeue();
      assert packet in old(queue.Contents());
      wire := SendCommand(packet, connected, sentAt);
    }

    /** Checksum, digits and confirmation code, built in the two local buffers the source uses. */
    method SendCommand(packet: seq<Byte>, connected: bool, sentAt: Millis) returns (wire: seq<Byte>)
      requires confIndex < CODE_COUNT
      modifies this`confIndex, this`lastSend
      ensures !connected || |packet| > MAX_COMMAND ==> wire == [] && unchanged(this)
      ensures connected && |packet| <= MAX_COMMAND ==>
                wire == Line(packet, CONFIRMATION_CODES[old(confIndex)]) + [CR] &&
                confIndex == (old(confIndex) + 1) % CODE_COUNT && lastSend == sentAt
    {
      if !connected || |packet| > MAX_COMMAND {
        return [];
      }
      var code := NextConfCode();
      wire := FillLine(packet, code);
      lastSend := sentAt;
    }
  }

  method FillLine(packet: seq<Byte>, code: Byte) returns (wire: seq<Byte>)
    requires |packet| <= MAX_COMMAND
    ensures wire == Line(packet, code) + [CR]
  {
    var withChecksum := Checksum.Append(packet);
    var hex := new Byte[140];
    hex[0] := BACKSLASH;
    var digits := HexEncode(withChecksum, hex, 1, hex.Length - 3);
    forall k | 1 <= k < 1 + digits
      ensures hex[k] != 0
    {
      DigitIsNotZero(withChecksum, k - 1);
      assert hex[k] == hex[1..1 + digits][k - 1];
    }
    var length := StringLength(hex);
    hex[length] := code;
    hex[length + 1] := 0;
    assert hex[..length + 1] == [BACKSLASH] + hex[1..1 + digits] + [code];
    wire := hex[..length + 1] + [CR];
  }

  lemma DigitIsNotZero(data: seq<Byte>, k: nat)
    requires k < |Hex.Encode(data)|
    ensures Hex.Encode(data)[k] != 0
  {
    assert Hex.Encode(data)[k] in Hex.Encode(data);
  }

  method StringLength(s: array<Byte>) returns (n: nat)
    requires exists k | 0 <= k < s.Length :: s[k] == 0
    ensures n < s.Length && s[n] == 0 && forall k | 0 <= k < n :: s[k] != 0
  {
    n := 0;
    while s[n] != 0
      invariant n < s.Length && forall k | 0 <= k < n :: s[k] != 0
      decreases s.Length - n
    {
      n := n + 1;
      assert exists k | n <= k < s.Length :: s[k] == 0;
    }
  }

  predicate Due<T>(queue: seq<T>, now: Millis, lastSend: Millis) {
    queue != [] && (now - lastSend) % 0x1_0000_0000 >= 200
  }

  // ---- When a lost command shows --------------------------------------------------------

  /** A ramp's rate is a code of the table: see `Sals.RateCodes`. */
  predicate Rated(light: Light) {
    light.Ramp? ==> light.rate % 8 == 2 && light.rate <= 0x7A
  }

  lemma RatedIsRampRate(light: Light)
    ensures Rated(light) <==> (light.Ramp? ==> IsRampRate(light.rate))
  {
    if light.Ramp? {
      Sals.RateCodes(light.rate);
    }
  }

  predicate AllRated(lights: seq<Light>) {
    lights == [] || (Rated(lights[0]) && AllRated(lights[1..]))
  }

  function Packets(lights: seq<Light>): (r: seq<seq<Byte>>)
    ensures |r| == |lights|
  {
    if lights == [] then [] else [Packet(APP_LIGHTING, lights[0])] + Packets(lights[1..])
  }

  /** What the commands would set, one after the other. */
  function Applied(levels: seq<Byte>, lights: seq<Light>): (r: seq<Byte>)
    requires |levels| == Bridge.MAX_GROUPS
    ensures |r| == Bridge.MAX_GROUPS
    decreases |lights|
  {
    if lights == [] then levels else Applied(levels[lights[0].group := TargetLevel(lights[0])], lights[1..])
  }

  /** Sending the packets through checksum, digits, wire and parser has the effect of the commands. */
  lemma {:induction false} ReplayIsApplied(lights: seq<Light>, levels: seq<Byte>)
    requires |levels| == Bridge.MAX_GROUPS && AllRated(lights)
    ensures Replay(Packets(lights), levels) == Applied(levels, lights)
    decreases |lights|
  {
    if lights != [] {
      assert CONFIRMATION_CODES[0] == 0x68;
      RatedIsRampRate(lights[0]);
      DefaultApplicationIsApplied(levels, lights[0], 0x68);
      assert Packets(lights)[1..] == Packets(lights[1..]);
      ReplayIsApplied(lights[1..], levels[lights[0].group := TargetLevel(lights[0])]);
    }
  }

  ghost predicate AllLightPackets(queue: seq<seq<Byte>>) {
    forall packet | packet in queue :: IsLightPacket(packet)
  }

  /** The commands whose packets a queue holds. */
  ghost function LightsOf(queue: seq<seq<Byte>>): (lights: seq<Light>)
    requires AllLightPackets(queue)
    ensures Packets(lights) == queue && AllRated(lights)
  {
    if queue == [] then []
    else
      assert IsLightPacket(queue[0]);
      var first: Light :| queue[0] == Packet(APP_LIGHTING, first) && (first.Ramp? ==> IsRampRate(first.rate));
      RatedIsRampRate(first);
      var rest := LightsOf(queue[1..]);
      assert ([first] + rest)[1..] == rest;
      [first] + rest
  }

  lemma {:induction false} PacketsAreLights(lights: seq<Light>)
    requires AllRated(lights)
    ensures AllLightPackets(Packets(lights))
  {
    if lights != [] {
      RatedIsRampRate(lights[0]);
      assert IsLightPacket(Packet(APP_LIGHTING, lights[0]));
      PacketsAreLights(lights[1..]);
    }
  }

  lemma {:induction false} PacketsConcat(a: seq<Light>, b: seq<Light>)
    ensures Packets(a + b) == Packets(a) + Packets(b)
  {
    if a == [] {
      assert a + b == b;
    } else {
      assert (a + b)[1..] == a[1..] + b;
      PacketsConcat(a[1..], b);
    }
  }

  predicate Overtaken(group: Byte, later: seq<Light>) {
    exists j | 0 <= j < |later| :: later[j].group == group
  }

  /** Two levels that differ in one group still do after commands to other groups, and no more after one to it. */
  lemma {:induction false} DifferenceStaysIff(levels: seq<Byte>, group: Byte, level: Byte, later: seq<Light>)
    requires |levels| == Bridge.MAX_GROUPS
    ensures Applied(levels[group := level], later) == Applied(levels, later)
       <==> Overtaken(group, later) || levels[group] == level
    decreases |later|
  {
    if later == [] {
      assert levels[group := level][group] == level;
    } else {
      var first, rest := later[0], later[1..];
      var next := levels[first.group := TargetLevel(first)];
      if first.group == group {
        assert levels[group := level][group := TargetLevel(first)] == next;
      } else {
        DifferenceStaysIff(next, group, level, rest);
        assert levels[group := level][first.group := TargetLevel(first)] == next[group := level];
        assert Overtaken(group, later) <==> Overtaken(group, rest) by {
          assert forall j | 0 < j < |later| :: later[j] == rest[j - 1];
        }
      }
    }
  }

  lemma LossAtHead(shown: seq<Byte>, lights: seq<Light>)
    requires |shown| == Bridge.MAX_GROUPS && lights != []
    ensures Applied(shown, lights[1..]) == Applied(shown, lights)
       <==> Overtaken(lights[0].group, lights[1..]) || shown[lights[0].group] == TargetLevel(lights[0])
  {
    DifferenceStaysIff(shown, lights[0].group, TargetLevel(lights[0]), lights[1..]);
  }

  /** A command lost while the connection is closed, at the head of the queue, goes unseen exactly if a later one in
      the queue names its group, or the bridge showed its level already. */
  lemma LostHeadIsUnseenIff(lights: seq<Light>, shown: seq<Byte>)
    requires |shown| == Bridge.MAX_GROUPS && lights != [] && AllRated(lights)
    ensures Replay(Packets(lights)[1..], shown) == Replay(Packets(lights), shown)
       <==> Overtaken(lights[0].group, lights[1..]) || shown[lights[0].group] == TargetLevel(lights[0])
  {
    ReplayIsApplied(lights, shown);
    ReplayIsApplied(lights[1..], shown);
    assert Packets(lights)[1..] == Packets(lights[1..]);
    LossAtHead(shown, lights);
  }

  lemma {:induction false} AppliedConcat(levels: seq<Byte>, a: seq<Light>, b: seq<Light>)
    requires |levels| == Bridge.MAX_GROUPS
    ensures Applied(levels, a + b) == Applied(Applied(levels, a), b)
    decreases |a|
  {
    if a == [] {
      assert a + b == b;
    } else {
      assert (a + b)[1..] == a[1..] + b;
      AppliedConcat(levels[a[0].group := TargetLevel(a[0])], a[1..], b);
    }
  }

  lemma {:induction false} AllRatedConcat(a: seq<Light>, b: seq<Light>)
    requires AllRated(a) && AllRated(b)
    ensures AllRated(a + b)
  {
    if a == [] {
      assert a + b == b;
    } else {
      assert (a + b)[1..] == a[1..] + b;
      AllRatedConcat(a[1..], b);
    }
  }

  lemma ReplayOfMore(queue: seq<Light>, recorded: seq<Byte>, shown: seq<Byte>, later: seq<Light>)
    requires |shown| == |recorded| == Bridge.MAX_GROUPS && recorded == Replay(Packets(queue), shown)
    requires AllRated(queue) && AllRated(later)
    ensures Replay(Packets(queue + later), shown) == Applied(recorded, later)
  {
    AllRatedConcat(queue, later);
    ReplayIsApplied(queue, shown);
    ReplayIsApplied(queue + later, shown);
    AppliedConcat(shown, queue, later);
  }

  /** The levels recorded for a command and for those after it are the levels shown in the end. */
  predicate Unseen(recorded: seq<Byte>, light: Light, later: seq<Light>, shownInTheEnd: seq<Byte>)
    requires |recorded| == Bridge.MAX_GROUPS
  {
    Applied(recorded[light.group := TargetLevel(light)], later) == shownInTheEnd
  }

  lemma UnseenIff(recorded: seq<Byte>, light: Light, later: seq<Light>, shownInTheEnd: seq<Byte>)
    requires |recorded| == Bridge.MAX_GROUPS && shownInTheEnd == Applied(recorded, later)
    ensures Unseen(recorded, light, later, shownInTheEnd)
       <==> Overtaken(light.group, later) || recorded[light.group] == TargetLevel(light)
  {
    DifferenceStaysIff(recorded, light.group, TargetLevel(light), later);
  }

  /** A command lost to a full queue goes unseen, once commands `later` have followed, exactly if one of those names
      its group, or the level was recorded before. */
  lemma LostToFullQueueIsUnseenIff(queue: seq<Light>, recorded: seq<Byte>, shown: seq<Byte>, light: Light,
                                   later: seq<Light>)
    requires |shown| == |recorded| == Bridge.MAX_GROUPS && recorded == Replay(Packets(queue), shown)
    requires AllRated(queue) && AllRated(later)
    ensures Unseen(recorded, light, later, Replay(Packets(queue + later), shown))
       <==> Overtaken(light.group, later) || recorded[light.group] == TargetLevel(light)
  {
    ReplayOfMore(queue, recorded, shown, later);
    UnseenIff(recorded, light, later, Replay(Packets(queue + later), shown));
  }

  // ---- End to end -----------------------------------------------------------------------

  /** What happens to the firmware: a light is switched, or its main loop comes round to the queue. */
  datatype Event =
    | Switch(light: Light)
    | Tick(now: Millis, connected: bool, sentAt: Millis)

  predicate EventsRated(events: seq<Event>) {
    events == [] || ((events[0].Switch? ==> Rated(events[0].light)) && EventsRated(events[1..]))
  }

  /** All commands given. */
  function Switches(events: seq<Event>): seq<Light> {
    if events == [] then []
    else (if events[0].Switch? then [events[0].light] else []) + Switches(events[1..])
  }

  /** The commands that are not lost: those sent while connected, in order, and those still waiting at the end. */
  function Kept(waiting: seq<Light>, lastSend: Millis, events: seq<Event>): seq<Light>
    decreases |events|
  {
    if events == [] then waiting
    else
      var rest := events[1..];
      match events[0]
      case Switch(light) =>
        if |waiting| == QUEUE_SIZE - 1 then Kept(waiting, lastSend, rest) else Kept(waiting + [light], lastSend, rest)
      case Tick(now, connected, sentAt) =>
        if !Due(waiting, now, lastSend) then Kept(waiting, lastSend, rest)
        else if connected then [waiting[0]] + Kept(waiting[1..], sentAt, rest)
        else Kept(waiting[1..], lastSend, rest)
  }

  /** Whether one is lost on the way. */
  predicate Loses(waiting: seq<Light>, lastSend: Millis, events: seq<Event>)
    decreases |events|
  {
    events != [] &&
    var rest := events[1..];
    match events[0]
    case Switch(light) => |waiting| == QUEUE_SIZE - 1 || Loses(waiting + [light], lastSend, rest)
    case Tick(now, connected, sentAt) =>
      if !Due(waiting, now, lastSend) then Loses(waiting, lastSend, rest)
      else !connected || Loses(waiting[1..], sentAt, rest)
  }

  lemma {:induction false} KeptAtMost(waiting: seq<Light>, lastSend: Millis, events: seq<Event>)
    ensures |Kept(waiting, lastSend, events)| <= |waiting| + |Switches(events)|
    ensures Loses(waiting, lastSend, events) ==>
              |Kept(waiting, lastSend, events)| < |waiting| + |Switches(events)|
    decreases |events|
  {
    if events != [] {
      var rest := events[1..];
      match events[0] {
        case Switch(light) =>
          KeptAtMost(waiting, lastSend, rest);
          KeptAtMost(waiting + [light], lastSend, rest);
        case Tick(now, connected, sentAt) =>
          KeptAtMost(waiting, lastSend, rest);
          if waiting != [] {
            KeptAtMost(waiting[1..], sentAt, rest);
            KeptAtMost(waiting[1..], lastSend, rest);
          }
      }
    }
  }

  lemma {:induction false} NothingLostIsKept(waiting: seq<Light>, lastSend: Millis, events: seq<Event>)
    requires !Loses(waiting, lastSend, events)
    ensures Kept(waiting, lastSend, events) == waiting + Switches(events)
    decreases |events|
  {
    if events != [] {
      var rest := events[1..];
      match events[0] {
        case Switch(light) =>
          NothingLostIsKept(waiting + [light], lastSend, rest);
          Regroup(waiting, [light], Switches(rest));
        case Tick(now, connected, sentAt) =>
          assert [] + Switches(rest) == Switches(rest);
          if Due(waiting, now, lastSend) {
            NothingLostIsKept(waiting[1..], sentAt, rest);
            assert [waiting[0]] + waiting[1..] == waiting;
            Regroup([waiting[0]], waiting[1..], Switches(rest));
          } else {
            NothingLostIsKept(waiting, lastSend, rest);
          }
      }
    }
  }

  /** Commands are lost exactly if what is kept is not all that waited or was given. */
  lemma LosesIff(waiting: seq<Light>, lastSend: Millis, events: seq<Event>)
    ensures Loses(waiting, lastSend, events) <==> Kept(waiting, lastSend, events) != waiting + Switches(events)
  {
    KeptAtMost(waiting, lastSend, events);
    if !Loses(waiting, lastSend, events) {
      NothingLostIsKept(waiting, lastSend, events);
    }
  }

  /** The level the last command to a group sets, or the one it had. */
  function Latest(before: Byte, lights: seq<Light>, group: Byte): Byte
    decreases |lights|
  {
    if lights == [] then before
    else Latest(if lights[0].group == group then TargetLevel(lights[0]) else before, lights[1..], group)
  }

  lemma {:induction false} AppliedAt(levels: seq<Byte>, lights: seq<Light>, group: Byte)
    requires |levels| == Bridge.MAX_GROUPS
    ensures Applied(levels, lights)[group] == Latest(levels[group], lights, group)
    decreases |lights|
  {
    if lights != [] {
      AppliedAt(levels[lights[0].group := TargetLevel(lights[0])], lights[1..], group);
    }
  }

  /** Once everything queued has arrived, the bridge's levels are those the firmware recorded. */
  ghost predicate InStep(sender: Sender, bridge: Bridge.Bridge)
    requires sender.Valid() && bridge.Valid()
    reads sender, sender.queue, sender.queue.slots, sender.levels, bridge, bridge.levels
  {
    && sender.levels[..] == Replay(sender.queue.Contents(), bridge.levels[..])
    && AllLightPackets(sender.queue.Contents())
  }

  /** The queue holds the packets of these commands. */
  ghost predicate Waits(sender: Sender, waiting: seq<Light>)
    requires sender.Valid()
    reads sender, sender.queue, sender.queue.slots, sender.levels
  {
    sender.queue.Contents() == Packets(waiting) && AllRated(waiting)
  }

  lemma InStepIff(sender: Sender, bridge: Bridge.Bridge, waiting: seq<Light>)
    requires sender.Valid() && bridge.Valid() && Waits(sender, waiting)
    ensures InStep(sender, bridge) <==> sender.levels[..] == Applied(bridge.levels[..], waiting)
  {
    ReplayIsApplied(waiting, bridge.levels[..]);
    PacketsAreLights(waiting);
  }

  /** A light is switched. A command that finds the queue full is lost, and goes unseen for the moment exactly if its
      level was recorded before. */
  method OnSwitch(sender: Sender, bridge: Bridge.Bridge, light: Light, ghost waiting: seq<Light>)
    returns (lost: bool)
    requires sender.Valid() && bridge.Valid() && sender.levels != bridge.levels
    requires Waits(sender, waiting) && Rated(light)
    modifies sender.queue, sender.queue.slots, sender.levels
    ensures sender.Valid() && bridge.Valid()
    ensures lost == (|waiting| == QUEUE_SIZE - 1)
    ensures Waits(sender, if lost then waiting else waiting + [light])
    ensures sender.levels[..] == old(sender.levels[..])[light.group := TargetLevel(light)]
    ensures old(InStep(sender, bridge)) ==>
              (InStep(sender, bridge) <==> !lost || old(sender.levels[..])[light.group] == TargetLevel(light))
  {
    lost := sender.queue.Full();
    ghost var recorded, shown := sender.levels[..], bridge.levels[..];
    InStepIff(sender, bridge, waiting);
    sender.SendLight(APP_LIGHTING, light);
    PacketsConcat(waiting, [light]);
    assert Packets([light]) == [Packet(APP_LIGHTING, light)];
    AllRatedConcat(waiting, [light]);
    InStepIff(sender, bridge, if lost then waiting else waiting + [light]);
    AppliedConcat(shown, waiting, [light]);
    UnseenIff(recorded, light, [], recorded);
  }

  /** The bridge at the other end takes a line off the wire; its answer is not needed here. */
  method Deliver(bridge: Bridge.Bridge, line: seq<Byte>, ghost packet: seq<Byte>, ghost code: Byte)
    requires bridge.Valid() && line == Line(packet, code)
    modifies bridge, bridge.levels
    ensures bridge.Valid() && bridge.levels[..] == Delivered(old(bridge.levels[..]), packet, code)
  {
    var resp := new Byte[256];
    var n := bridge.ProcessCommand(line, resp);
    assert bridge.Value().levels == bridge.levels[..];
  }

  /** What goes onto the wire reaches the bridge. */
  method Relay(sender: Sender, bridge: Bridge.Bridge, now: Millis, connected: bool, sentAt: Millis,
               ghost waiting: seq<Light>)
    requires sender.Valid() && bridge.Valid() && sender.levels != bridge.levels && Waits(sender, waiting)
    modifies sender`confIndex, sender`lastSend, sender.queue`head, bridge, bridge.levels
    ensures sender.Valid() && bridge.Valid()
    ensures Waits(sender, if Due(waiting, now, old(sender.lastSend)) then waiting[1..] else waiting)
    ensures !connected || !Due(waiting, now, old(sender.lastSend)) ==>
              bridge.levels[..] == old(bridge.levels[..]) && sender.lastSend == old(sender.lastSend)
    ensures connected && Due(waiting, now, old(sender.lastSend)) ==>
              && bridge.levels[..] == old(bridge.levels[..])[waiting[0].group := TargetLevel(waiting[0])]
              && sender.lastSend == sentAt
  {
    ghost var due, shown := Due(waiting, now, sender.lastSend), bridge.levels[..];
    ghost var code := CONFIRMATION_CODES[sender.confIndex];
    var wire := sender.ProcessQueue(now, connected, sentAt);
    if wire != [] {
      assert wire[..|wire| - 1] == Line(Packets(waiting)[0], code);
      Deliver(bridge, wire[..|wire| - 1], Packets(waiting)[0], code);
      RatedIsRampRate(waiting[0]);
      DefaultApplicationIsApplied(shown, waiting[0], code);
    }
    if due {
      assert Packets(waiting)[1..] == Packets(waiting[1..]);
    }
  }

  /** The main loop comes round to the queue. A command dropped while the connection is closed goes unseen exactly if
      a later one in the queue names its group, or the bridge showed its level already. */
  method OnTick(sender: Sender, bridge: Bridge.Bridge, now: Millis, connected: bool, sentAt: Millis,
                ghost waiting: seq<Light>)
    returns (lost: bool)
    requires sender.Valid() && bridge.Valid() && sender.levels != bridge.levels && Waits(sender, waiting)
    modifies sender`confIndex, sender`lastSend, sender.queue`head, bridge, bridge.levels
    ensures sender.Valid() && bridge.Valid()
    ensures lost == (!connected && Due(waiting, now, old(sender.lastSend)))
    ensures Waits(sender, if Due(waiting, now, old(sender.lastSend)) then waiting[1..] else waiting)
    ensures !connected || !Due(waiting, now, old(sender.lastSend)) ==>
              bridge.levels[..] == old(bridge.levels[..]) && sender.lastSend == old(sender.lastSend)
    ensures connected && Due(waiting, now, old(sender.lastSend)) ==>
              && bridge.levels[..] == old(bridge.levels[..])[waiting[0].group := TargetLevel(waiting[0])]
              && sender.lastSend == sentAt
    ensures old(InStep(sender, bridge)) ==>
              (InStep(sender, bridge)
               <==> !lost || Overtaken(waiting[0].group, waiting[1..])
                    || old(bridge.levels[..])[waiting[0].group] == TargetLevel(waiting[0]))
  {
    ghost var due, shown := Due(waiting, now, sender.lastSend), bridge.levels[..];
    lost := !connected && !sender.queue.Empty() && (now - sender.lastSend) % 0x1_0000_0000 >= 200;
    InStepIff(sender, bridge, waiting);
    Relay(sender, bridge, now, connected, sentAt, waiting);
    InStepIff(sender, bridge, if due then waiting[1..] else waiting);
    if due {
      LossAtHead(shown, waiting);
    }
  }

  lemma KeptUnfolds(shown: seq<Byte>, waiting: seq<Light>, lastSend: Millis, events: seq<Event>)
    requires |shown| == Bridge.MAX_GROUPS && events != []
    ensures match events[0]
            case Switch(light) =>
              KeptAlike(shown, waiting, lastSend, events, shown,
                        if |waiting| == QUEUE_SIZE - 1 then waiting else waiting + [light], lastSend)
            case Tick(now, connected, sentAt) =>
              if !Due(waiting, now, lastSend) then KeptAlike(shown, waiting, lastSend, events, shown, waiting, lastSend)
              else if connected then
                KeptAlike(shown, waiting, lastSend, events,
                          shown[waiting[0].group := TargetLevel(waiting[0])], waiting[1..], sentAt)
              else KeptAlike(shown, waiting, lastSend, events, shown, waiting[1..], lastSend)
  {
    if events[0].Tick? && Due(waiting, events[0].now, lastSend) && events[0].connected {
      var later := Kept(waiting[1..], events[0].sentAt, events[1..]);
      assert ([waiting[0]] + later)[1..] == later;
    }
  }

  /** What is shown in the end is the same from before the first event and from after it. */
  predicate KeptAlike(shown: seq<Byte>, waiting: seq<Light>, lastSend: Millis, events: seq<Event>,
                      nextShown: seq<Byte>, nextWaiting: seq<Light>, nextLastSend: Millis)
    requires |shown| == |nextShown| == Bridge.MAX_GROUPS && events != []
  {
    Applied(shown, Kept(waiting, lastSend, events)) == Applied(nextShown, Kept(nextWaiting, nextLastSend, events[1..]))
  }

  lemma SwitchesUnfold(recorded: seq<Byte>, events: seq<Event>)
    requires |recorded| == Bridge.MAX_GROUPS && events != []
    ensures Applied(recorded, Switches(events))
         == match events[0]
            case Switch(light) => Applied(recorded[light.group := TargetLevel(light)], Switches(events[1..]))
            case Tick(_, _, _) => Applied(recorded, Switches(events[1..]))
  {
    if events[0].Switch? {
      assert ([events[0].light] + Switches(events[1..]))[1..] == Switches(events[1..]);
    } else {
      assert [] + Switches(events[1..]) == Switches(events[1..]);
    }
  }

  /** One event, with what it leaves to the events that follow. */
  method OnEvent(sender: Sender, bridge: Bridge.Bridge, ghost events: seq<Event>, e: Event, ghost before: seq<Light>)
    returns (lost: bool, ghost waiting: seq<Light>)
    requires sender.Valid() && bridge.Valid() && sender.levels != bridge.levels && Waits(sender, before)
    requires events != [] && e == events[0] && EventsRated(events)
    modifies sender, sender.queue, sender.queue.slots, sender.levels, bridge, bridge.levels
    ensures sender.Valid() && bridge.Valid() && Waits(sender, waiting)
    ensures Applied(sender.levels[..], Switches(events[1..])) == Applied(old(sender.levels[..]), Switches(events))
    ensures KeptAlike(old(bridge.levels[..]), before, old(sender.lastSend), events,
                      bridge.levels[..], waiting, sender.lastSend)
    ensures (lost || Loses(waiting, sender.lastSend, events[1..])) <==> Loses(before, old(sender.lastSend), events)
  {
    SwitchesUnfold(sender.levels[..], events);
    KeptUnfolds(bridge.levels[..], before, sender.lastSend, events);
    match e {
      case Switch(light) =>
        lost := OnSwitch(sender, bridge, light, before);
        waiting := if lost then before else before + [light];
      case Tick(now, connected, sentAt) =>
        ghost var due := Due(before, now, sender.lastSend);
        lost := OnTick(sender, bridge, now, connected, sentAt, before);
        waiting := if due then before[1..] else before;
    }
  }

  /** All events, one after the other. */
  method OnEvents(sender: Sender, bridge: Bridge.Bridge, events: seq<Event>, ghost before: seq<Light>)
    returns (lost: bool, ghost waiting: seq<Light>)
    requires sender.Valid() && bridge.Valid() && sender.levels != bridge.levels && Waits(sender, before)
    requires EventsRated(events)
    modifies sender, sender.queue, sender.queue.slots, sender.levels, bridge, bridge.levels
    ensures sender.Valid() && bridge.Valid() && Waits(sender, waiting)
    ensures sender.levels[..] == Applied(old(sender.levels[..]), Switches(events))
    ensures Applied(bridge.levels[..], waiting)
         == Applied(old(bridge.levels[..]), Kept(before, old(sender.lastSend), events))
    ensures lost == Loses(before, old(sender.lastSend), events)
  {
    lost, waiting := false, before;
    for i := 0 to |events|
      invariant sender.Valid() && bridge.Valid() && Waits(sender, waiting) && EventsRated(events[i..])
      invariant Applied(sender.levels[..], Switches(events[i..])) == Applied(old(sender.levels[..]), Switches(events))
      invariant Applied(bridge.levels[..], Kept(waiting, sender.lastSend, events[i..]))
             == Applied(old(bridge.levels[..]), Kept(before, old(sender.lastSend), events))
      invariant (lost || Loses(waiting, sender.lastSend, events[i..])) <==> Loses(before, old(sender.lastSend), events)
    {
      assert events[i..][0] == events[i] && events[i..][1..] == events[i + 1..];
      var lostNow;
      lostNow, waiting := OnEvent(sender, bridge, events[i..], events[i], waiting);
      lost := lost || lostNow;
    }
  }

  /** Two lists of levels agree at exactly the groups where the latest of two lists of commands do. */
  predicate AgreeWhereLatestDo(a: seq<Byte>, b: seq<Byte>, beforeA: seq<Byte>, lightsA: seq<Light>,
                               beforeB: seq<Byte>, lightsB: seq<Light>)
    requires |a| == |b| == |beforeA| == |beforeB| == Bridge.MAX_GROUPS
  {
    forall group: Byte :: (a[group] == b[group]) ==
                          (Latest(beforeA[group], lightsA, group) == Latest(beforeB[group], lightsB, group))
  }

  lemma AppliedAgree(beforeA: seq<Byte>, lightsA: seq<Light>, beforeB: seq<Byte>, lightsB: seq<Light>)
    requires |beforeA| == |beforeB| == Bridge.MAX_GROUPS
    ensures AgreeWhereLatestDo(Applied(beforeA, lightsA), Applied(beforeB, lightsB), beforeA, lightsA, beforeB, lightsB)
  {
    forall group: Byte
      ensures (Applied(beforeA, lightsA)[group] == Applied(beforeB, lightsB)[group]) ==
              (Latest(beforeA[group], lightsA, group) == Latest(beforeB[group], lightsB, group))
    {
      AppliedAt(beforeA, lightsA, group);
      AppliedAt(beforeB, lightsB, group);
    }
  }

  /** Runs any sequence of events with a bridge at the other end of the wire. The recorded levels are those of all
      commands given; those of the bridge, once everything queued has arrived, are those of the commands kept. So a
      group agrees in the end exactly if the last command given to it and the last one kept set the same level; and
      if nothing is lost both stay in step. */
  method Run(sender: Sender, bridge: Bridge.Bridge, events: seq<Event>) returns (lost: bool)
    requires sender.Valid() && bridge.Valid() && sender.levels != bridge.levels
    requires AllLightPackets(sender.queue.Contents()) && EventsRated(events)
    modifies sender, sender.queue, sender.queue.slots, sender.levels, bridge, bridge.levels
    ensures sender.Valid() && bridge.Valid() && AllLightPackets(sender.queue.Contents())
    ensures var first := LightsOf(old(sender.queue.Contents()));
            var kept := Kept(first, old(sender.lastSend), events);
            var shown := Replay(sender.queue.Contents(), bridge.levels[..]);
            && sender.levels[..] == Applied(old(sender.levels[..]), Switches(events))
            && shown == Applied(old(bridge.levels[..]), kept)
            && lost == (kept != first + Switches(events))
            && AgreeWhereLatestDo(sender.levels[..], shown, old(sender.levels[..]), Switches(events),
                                  old(bridge.levels[..]), kept)
    ensures !lost && old(InStep(sender, bridge)) ==> InStep(sender, bridge)
    ensures !lost && old(InStep(sender, bridge)) && sender.queue.Contents() == [] ==>
              bridge.levels[..] == sender.levels[..]
  {
    ghost var first, lastSend := LightsOf(sender.queue.Contents()), sender.lastSend;
    ghost var recorded, shown := sender.levels[..], bridge.levels[..];
    InStepIff(sender, bridge, first);
    ghost var waiting;
    lost, waiting := OnEvents(sender, bridge, events, first);
    PacketsAreLights(waiting);
    ReplayIsApplied(waiting, bridge.levels[..]);
    InStepIff(sender, bridge, waiting);
    LosesIff(first, lastSend, events);
    AppliedAgree(recorded, Switches(events), shown, Kept(first, lastSend, events));
    AppliedConcat(shown, first, Switches(events));
  }
}
