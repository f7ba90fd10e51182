/** The flow controller's core: window accounting, latency estimate, AIMD transitions.

    Time is real-valued seconds and is passed in, as in the source. Each operation is a function on
    a state value, and the class below performs it in place. */
module FlowControl {
  import opened Bytes
  import opened Wrappers

  type Instant = real
  type Duration = d: real | 0.0 <= d

  datatype Config = Config(windowInitial: nat, windowMin: nat, windowMax: nat, minGap: Duration,
                           rtoFactor: real, rtoMin: Duration, rtoMax: Duration, errorPause: Duration,
                           collapseTimeouts: nat, growAcks: nat, silentHold: Duration, seedLatency: Duration,
                           ewmaAlpha: real, varBeta: real)

  const DEFAULT := Config(2, 1, 4, 0.03, 2.5, 0.5, 2.0, 0.25, 2, 10, 0.1, 0.2, 0.125, 0.25)

  /** What the controller needs of its tuning knobs. */
  predicate Sane(cfg: Config) {
    && 1 <= cfg.windowMin <= cfg.windowInitial <= cfg.windowMax
    && cfg.rtoMin <= cfg.rtoMax
    && 1 <= cfg.collapseTimeouts && 1 <= cfg.growAcks
    && 0.0 <= cfg.ewmaAlpha <= 1.0 && 0.0 <= cfg.varBeta <= 1.0
  }

  lemma DefaultIsSane()
    ensures Sane(DEFAULT)
  {}

  /** What releases a frame's slot. */
  datatype ResponseKind =
    | Confirmation(code: Byte)
    | Report(app: Byte, block: Byte, level: bool)
    | Silent

  datatype AckSignal =
    | ConfirmationSeen(code: Byte)
    | ReportSeen(app: Byte, block: Byte, level: bool)

  predicate Matches(kind: ResponseKind, sig: AckSignal) {
    match (kind, sig)
    case (Confirmation(c), ConfirmationSeen(s)) => c == s
    case (Report(app, block, level), ReportSeen(a, b, l)) => app == a && block == b && level == l
    case _ => false
  }

  datatype Slot = Slot(kind: ResponseKind, sentAt: Instant, deadline: Instant)

  datatype Gate = Ready | Until(at: Instant) | Window

  datatype State = State(window: nat, inFlight: seq<Slot>, ewma: real, variance: real,
                         consecutiveTimeouts: nat, cleanAcks: nat,
                         pausedUntil: Option<Instant>, lastSend: Option<Instant>, collapsed: bool)

  function Initial(cfg: Config): State {
    State(cfg.windowInitial, [], cfg.seedLatency, 0.0, 0, 0, None, None, false)
  }

  // ---- Read-only decisions --------------------------------------------------------------

  function Clamp(x: real, lo: real, hi: real): (r: real)
    requires lo <= hi
    ensures lo <= r <= hi
    ensures r == x || (r == lo && x < lo) || (r == hi && x > hi)
  {
    if x < lo then lo else if x > hi then hi else x
  }

  function Scaled(factor: real, x: real): real {
    factor * x
  }

  function Rto(cfg: Config, s: State): (r: Duration)
    requires cfg.rtoMin <= cfg.rtoMax
    ensures cfg.rtoMin <= r <= cfg.rtoMax
  {
    Clamp(Scaled(cfg.rtoFactor, s.ewma), cfg.rtoMin, cfg.rtoMax)
  }

  function Hold(cfg: Config, s: State, kind: ResponseKind): Duration
    requires cfg.rtoMin <= cfg.rtoMax
  {
    if kind.Silent? then cfg.silentHold else Rto(cfg, s)
  }

  /** The earliest instant, from `now` on, that floor and pause allow. */
  function ReadyAt(cfg: Config, s: State, now: Instant): (t: Instant)
    ensures t >= now
    ensures s.pausedUntil.Some? ==> t >= s.pausedUntil.value
    ensures s.lastSend.Some? ==> t >= s.lastSend.value + cfg.minGap
  {
    var paused := if s.pausedUntil.Some? then Max(now, s.pausedUntil.value) else now;
    if s.lastSend.Some? then Max(paused, s.lastSend.value + cfg.minGap) else paused
  }

  function GateOf(cfg: Config, s: State, windowed: bool, now: Instant): Gate {
    if windowed && |s.inFlight| >= s.window then Window
    else if ReadyAt(cfg, s, now) > now then Until(ReadyAt(cfg, s, now))
    else Ready
  }

  predicate TimeAllows(cfg: Config, s: State, at: Instant) {
    (s.pausedUntil.Some? ==> at >= s.pausedUntil.value) && (s.lastSend.Some? ==> at >= s.lastSend.value + cfg.minGap)
  }

  /** The gate holds a frame back only for a full window, pause or floor, and to the first instant that suits both. */
  lemma GateIsExact(cfg: Config, s: State, windowed: bool, now: Instant, t: Instant)
    ensures GateOf(cfg, s, windowed, now) == Window <==> windowed && |s.inFlight| >= s.window
    ensures GateOf(cfg, s, windowed, now) == Ready <==>
              (windowed ==> |s.inFlight| < s.window) && TimeAllows(cfg, s, now)
    ensures GateOf(cfg, s, windowed, now) == Until(t) ==>
              t > now && TimeAllows(cfg, s, t) && forall u | now <= u < t :: !TimeAllows(cfg, s, u)
  {}

  function Max(a: real, b: real): real {
    if a < b then b else a
  }

  function Min(a: real, b: real): real {
    if b < a then b else a
  }

  /** The earliest deadline of the slots held. */
  function NextDeadline(slots: seq<Slot>): (r: Option<Instant>)
    ensures r.None? <==> slots == []
    ensures r.Some? ==> forall i | 0 <= i < |slots| :: r.value <= slots[i].deadline
    ensures r.Some? ==> exists i | 0 <= i < |slots| :: r.value == slots[i].deadline
  {
    if slots == [] then None
    else match NextDeadline(slots[1..])
      case None =>
        assert slots[0].deadline == slots[0].deadline;
        Some(slots[0].deadline)
      case Some(t) =>
        assert forall i | 1 <= i < |slots| :: slots[i] == slots[1..][i - 1];
        assert exists i | 0 <= i < |slots[1..]| :: t == slots[1..][i].deadline == slots[i + 1].deadline;
        Some(Min(slots[0].deadline, t))
  }

  // ---- Transitions ----------------------------------------------------------------------

  /** A windowed frame was written: it occupies a slot, and the floor restarts. */
  function AfterSend(cfg: Config, s: State, kind: ResponseKind, now: Instant): State
    requires cfg.rtoMin <= cfg.rtoMax
  {
    s.(inFlight := s.inFlight + [Slot(kind, now, now + Hold(cfg, s, kind))], lastSend := Some(now))
  }

  /** A retransmit was written: only the floor restarts. */
  function AfterRawSend(s: State, now: Instant): State {
    s.(lastSend := Some(now))
  }

  function Collapse(cfg: Config, s: State): State {
    if s.window > cfg.windowMin then s.(cleanAcks := 0, window := cfg.windowMin, collapsed := true)
    else s.(cleanAcks := 0)
  }

  function Live(slots: seq<Slot>, now: Instant): seq<Slot> {
    if slots == [] then []
    else (if slots[0].deadline > now then [slots[0]] else []) + Live(slots[1..], now)
  }

  function Dead(slots: seq<Slot>, now: Instant): seq<Slot> {
    if slots == [] then []
    else (if slots[0].deadline > now then [] else [slots[0]]) + Dead(slots[1..], now)
  }

  /** How many of the slots were still owed a response. */
  function Timeouts(dead: seq<Slot>): nat {
    if dead == [] then 0 else (if dead[0].kind.Silent? then 0 else 1) + Timeouts(dead[1..])
  }

  /** Slots past their deadline are released; unanswered ones count, all at once, towards a collapse. */
  function AfterExpiry(cfg: Config, s: State, now: Instant): State {
    var timeouts := Timeouts(Dead(s.inFlight, now));
    var released := s.(inFlight := Live(s.inFlight, now));
    if timeouts == 0 then released
    else
      var counted := released.(consecutiveTimeouts := s.consecutiveTimeouts + timeouts, cleanAcks := 0);
      if counted.consecutiveTimeouts >= cfg.collapseTimeouts then Collapse(cfg, counted) else counted
  }

  /** The first slot in the list that the signal matches. */
  function FirstMatch(slots: seq<Slot>, sig: AckSignal): (r: Option<nat>)
    ensures r.Some? ==> r.value < |slots| && Matches(slots[r.value].kind, sig)
    ensures r.Some? ==> forall i | 0 <= i < r.value :: !Matches(slots[i].kind, sig)
    ensures r.None? ==> forall i | 0 <= i < |slots| :: !Matches(slots[i].kind, sig)
  {
    if slots == [] then None
    else if Matches(slots[0].kind, sig) then Some(0)
    else match FirstMatch(slots[1..], sig)
      case None => None
      case Some(i) => Some(i + 1)
  }

  function Without(slots: seq<Slot>, i: nat): (r: seq<Slot>)
    requires i < |slots|
    ensures |r| == |slots| - 1
  {
    slots[..i] + slots[i + 1..]
  }

  function Blend(weight: real, estimate: real, sample: real): real {
    (1.0 - weight) * estimate + weight * sample
  }

  function Abs(x: real): (r: real)
    ensures r >= 0.0 && (r == x || r == -x)
  {
    if x < 0.0 then -x else x
  }

  /** A response was seen: the oldest slot it matches is released and its latency enters the estimate;
      after enough clean acks the window grows by one. */
  function AfterAck(cfg: Config, s: State, sig: AckSignal, now: Instant): State {
    match FirstMatch(s.inFlight, sig)
    case None => s
    case Some(i) =>
      var sample := now - s.inFlight[i].sentAt;
      var answered := s.(inFlight := Without(s.inFlight, i),
                         variance := Blend(cfg.varBeta, s.variance, Abs(sample - s.ewma)),
                         ewma := Blend(cfg.ewmaAlpha, s.ewma, sample),
                         consecutiveTimeouts := 0, cleanAcks := s.cleanAcks + 1);
      if answered.cleanAcks >= cfg.growAcks && s.window < cfg.windowMax
      then answered.(cleanAcks := 0, window := s.window + 1, collapsed := false)
      else answered
  }

  /** The PCI reported `!`: all sends pause, never for less than before, and the window collapses. */
  function AfterPciError(cfg: Config, s: State, now: Instant): State {
    var until := now + cfg.errorPause;
    Collapse(cfg, s.(pausedUntil := Some(if s.pausedUntil.Some? then Max(s.pausedUntil.value, until) else until)))
  }

  // ---- What expiry does to the slots ----------------------------------------------------

  lemma {:induction false} ExpirySplits(slots: seq<Slot>, now: Instant)
    ensures multiset(slots) == multiset(Live(slots, now)) + multiset(Dead(slots, now))
    ensures |slots| == |Live(slots, now)| + |Dead(slots, now)|
    ensures forall f | f in Live(slots, now) :: f in slots && f.deadline > now
    ensures forall f | f in Dead(slots, now) :: f in slots && f.deadline <= now
  {
    if slots != [] {
      ExpirySplits(slots[1..], now);
      assert slots == [slots[0]] + slots[1..];
    }
  }

  ghost predicate Sorted(slots: seq<Slot>) {
    forall i, j | 0 <= i < j < |slots| :: slots[i].sentAt <= slots[j].sentAt
  }

  lemma {:induction false} LiveIsSorted(slots: seq<Slot>, now: Instant)
    requires Sorted(slots)
    ensures Sorted(Live(slots, now))
  {
    if slots != [] {
      LiveIsSorted(slots[1..], now);
      ExpirySplits(slots[1..], now);
      forall f | f in Live(slots[1..], now)
        ensures slots[0].sentAt <= f.sentAt
      {
        assert f in slots[1..];
      }
    }
  }

  lemma WithoutKeepsTheRest(slots: seq<Slot>, i: nat)
    requires i < |slots|
    ensures multiset(slots) == multiset(Without(slots, i)) + multiset{slots[i]}
    ensures Sorted(slots) ==> Sorted(Without(slots, i))
  {
    assert slots == slots[..i] + [slots[i]] + slots[i + 1..];
  }

  /** An ack releases the oldest slot it matches and keeps all the others in order. */
  lemma AckReleasesOldestMatch(cfg: Config, s: State, sig: AckSignal, now: Instant)
    requires Sorted(s.inFlight) && FirstMatch(s.inFlight, sig).Some?
    ensures var released := s.inFlight[FirstMatch(s.inFlight, sig).value];
            && multiset(s.inFlight) == multiset(AfterAck(cfg, s, sig, now).inFlight) + multiset{released}
            && Matches(released.kind, sig)
            && forall j | 0 <= j < |s.inFlight| && Matches(s.inFlight[j].kind, sig) ::
                 released.sentAt <= s.inFlight[j].sentAt
    ensures Sorted(AfterAck(cfg, s, sig, now).inFlight)
  {
    WithoutKeepsTheRest(s.inFlight, FirstMatch(s.inFlight, sig).value);
  }

  /** The first of the slots that wait for exactly this response. */
  ghost predicate FirstWaiting(slots: seq<Slot>, kind: ResponseKind, i: nat) {
    i < |slots| && slots[i].kind == kind && forall j | 0 <= j < i :: slots[j].kind != kind
  }

  /** The one transition an answer to `kind` can make: the first slot that waits for it goes, if there is one. */
  ghost predicate ReleasesFirst(before: State, after: State, kind: ResponseKind) {
    && (after == before <==> forall i | 0 <= i < |before.inFlight| :: before.inFlight[i].kind != kind)
    && (forall i: nat | FirstWaiting(before.inFlight, kind, i) ::
          after.inFlight == before.inFlight[..i] + before.inFlight[i + 1..])
  }

  /** A confirmation answers the frame with its code and no other; a report the request for its application, block
      and level; so nothing answers a silent frame. */
  lemma AckReleasesItsKind(cfg: Config, s: State, c: Byte, app: Byte, block: Byte, level: bool, now: Instant)
    ensures ReleasesFirst(s, AfterAck(cfg, s, ConfirmationSeen(c), now), Confirmation(c))
    ensures ReleasesFirst(s, AfterAck(cfg, s, ReportSeen(app, block, level), now), Report(app, block, level))
  {
    KindIsAnswered(s.inFlight, ConfirmationSeen(c), Confirmation(c));
    KindIsAnswered(s.inFlight, ReportSeen(app, block, level), Report(app, block, level));
  }

  lemma KindIsAnswered(slots: seq<Slot>, sig: AckSignal, kind: ResponseKind)
    requires forall k :: Matches(k, sig) <==> k == kind
    ensures FirstMatch(slots, sig).None? <==> forall i | 0 <= i < |slots| :: slots[i].kind != kind
    ensures forall i: nat | FirstWaiting(slots, kind, i) :: FirstMatch(slots, sig) == Some(i)
  {}

  // ---- The controller object ------------------------------------------------------------

  class FlowState {
    const cfg: Config
    var window: nat
    var inFlight: seq<Slot>
    var ewma: real
    var variance: real
    var consecutiveTimeouts: nat
    var cleanAcks: nat
    var pausedUntil: Option<Instant>
    var lastSend: Option<Instant>
    var collapsed: bool

    function Value(): State
      reads this
    {
      State(window, inFlight, ewma, variance, consecutiveTimeouts, cleanAcks, pausedUntil, lastSend, collapsed)
    }

    constructor (cfg: Config)
      ensures this.cfg == cfg && Value() == Initial(cfg)
    {
      this.cfg := cfg;
      window, inFlight, ewma, variance := cfg.windowInitial, [], cfg.seedLatency, 0.0;
      consecutiveTimeouts, cleanAcks, pausedUntil, lastSend, collapsed := 0, 0, None, None, false;
    }

    method GateNow(windowed: bool, now: Instant) returns (g: Gate)
      ensures g == GateOf(cfg, Value(), windowed, now)
    {
      if windowed && |inFlight| >= window {
        return Window;
      }
      var ready := now;
      if pausedUntil.Some? {
        ready := Max(ready, pausedUntil.value);
      }
      if lastSend.Some? {
        ready := Max(ready, lastSend.value + cfg.minGap);
      }
      g := if ready > now then Until(ready) else Ready;
    }

    method RecordSend(kind: ResponseKind, now: Instant)
      requires cfg.rtoMin <= cfg.rtoMax
      modifies this
      ensures Value() == AfterSend(cfg, old(Value()), kind, now)
    {
      var hold := if kind.Silent? then cfg.silentHold else Rto(cfg, Value());
      inFlight := inFlight + [Slot(kind, now, now + hold)];
      lastSend := Some(now);
    }

    method RecordRawSend(now: Instant)
      modifies this
      ensures Value() == AfterRawSend(old(Value()), now)
    {
      lastSend := Some(now);
    }

    /** One pass keeps the live slots and counts the timeouts; one round per timeout may collapse the window. */
    method Expire(now: Instant)
      modifies this
      ensures Value() == AfterExpiry(cfg, old(Value()), now)
    {
      ghost var before := Value();
      var timeouts := Retain(now);
      ghost var released := Value();
      for n := 0 to timeouts
        invariant Value() == Counted(cfg, released, n)
      {
        consecutiveTimeouts := consecutiveTimeouts + 1;
        cleanAcks := 0;
        if consecutiveTimeouts >= cfg.collapseTimeouts {
          CollapseWindow();
        }
      }
    }

    method Retain(now: Instant) returns (timeouts: nat)
      modifies this`inFlight
      ensures inFlight == Live(old(inFlight), now) && timeouts == Timeouts(Dead(old(inFlight), now))
    {
      timeouts := 0;
      var kept: seq<Slot> := [];
      for i := 0 to |inFlight|
        invariant inFlight == old(inFlight)
        invariant kept + Live(inFlight[i..], now) == Live(inFlight, now)
        invariant timeouts + Timeouts(Dead(inFlight[i..], now)) == Timeouts(Dead(inFlight, now))
      {
        var f := inFlight[i];
        assert inFlight[i..][0] == f && inFlight[i..][1..] == inFlight[i + 1..];
        if f.deadline > now {
          kept := kept + [f];
          assert [] + Dead(inFlight[i + 1..], now) == Dead(inFlight[i + 1..], now);
        } else {
          assert [] + Live(inFlight[i + 1..], now) == Live(inFlight[i + 1..], now);
          assert ([f] + Dead(inFlight[i + 1..], now))[1..] == Dead(inFlight[i + 1..], now);
          if !f.kind.Silent? {
            timeouts := timeouts + 1;
          }
        }
      }
      inFlight := kept;
    }

    /** Returns whether a slot was released. */
    method OnAck(sig: AckSignal, now: Instant) returns (released: bool)
      modifies this
      ensures Value() == AfterAck(cfg, old(Value()), sig, now)
      ensures released == FirstMatch(old(inFlight), sig).Some?
    {
      var i := Position(sig);
      if i == |inFlight| {
        return false;
      }
      var f := inFlight[i];
      inFlight := inFlight[..i] + inFlight[i + 1..];
      var sample := now - f.sentAt;
      variance := Blend(cfg.varBeta, variance, Abs(sample - ewma));
      ewma := Blend(cfg.ewmaAlpha, ewma, sample);
      consecutiveTimeouts := 0;
      cleanAcks := cleanAcks + 1;
      if cleanAcks >= cfg.growAcks && window < cfg.windowMax {
        cleanAcks := 0;
        window := window + 1;
        if collapsed {
          collapsed := false;
        }
      }
      return true;
    }

    /** The position of the first slot the signal matches; the length if there is none. */
    method Position(sig: AckSignal) returns (i: nat)
      ensures i == if FirstMatch(inFlight, sig).Some? then FirstMatch(inFlight, sig).value else |inFlight|
    {
      i := 0;
      while i < |inFlight| && !Matches(inFlight[i].kind, sig)
        invariant i <= |inFlight| && forall j | 0 <= j < i :: !Matches(inFlight[j].kind, sig)
      {
        i := i + 1;
      }
    }

    method OnPciError(now: Instant)
      modifies this
      ensures Value() == AfterPciError(cfg, old(Value()), now)
    {
      var until := now + cfg.errorPause;
      pausedUntil := Some(if pausedUntil.Some? then Max(pausedUntil.value, until) else until);
      CollapseWindow();
    }

    method CollapseWindow()
      modifies this
      ensures Value() == Collapse(cfg, old(Value()))
    {
      cleanAcks := 0;
      if window > cfg.windowMin {
        window := cfg.windowMin;
        collapsed := true;
      }
    }

    method EarliestDeadline() returns (t: Option<Instant>)
      ensures t == NextDeadline(inFlight)
    {
      t := None;
      for i := 0 to |inFlight|
        invariant i == 0 <==> t.None?
        invariant t.Some? ==> exists j | 0 <= j < i :: t.value == inFlight[j].deadline
        invariant t.Some? ==> forall j | 0 <= j < i :: t.value <= inFlight[j].deadline
      {
        t := Some(if t.Some? then Min(t.value, inFlight[i].deadline) else inFlight[i].deadline);
      }
    }
  }

  /** The state after `n` rounds of the timeout loop: collapsing again changes nothing further. */
  function Counted(cfg: Config, s: State, n: nat): State {
    if n == 0 then s
    else
      var counted := s.(consecutiveTimeouts := s.consecutiveTimeouts + n, cleanAcks := 0);
      if counted.consecutiveTimeouts >= cfg.collapseTimeouts then Collapse(cfg, counted) else counted
  }
}
