/** What the controller keeps over every run, whatever arrives and however its writes end. */
module FlowSafety {
  import opened FlowControl
  import opened FlowDriver
  import opened Wrappers

  // ---- Views of the history -------------------------------------------------------------

  function Last<T>(s: seq<T>): T
    requires s != []
  {
    s[|s| - 1]
  }

  function Earlier<T>(s: seq<T>): seq<T>
    requires s != []
  {
    s[..|s| - 1]
  }

  function OnLane(jobs: seq<Job>, lane: Lane): seq<Job> {
    if jobs == [] then []
    else if LaneOf(Last(jobs)) == lane then OnLane(Earlier(jobs), lane) + [Last(jobs)]
    else OnLane(Earlier(jobs), lane)
  }

  /** The jobs taken off one lane. */
  function Popped(attempts: seq<Attempt>, lane: Lane): seq<Job> {
    if attempts == [] then []
    else if Last(attempts).lane == lane then Popped(Earlier(attempts), lane) + [Last(attempts).job]
    else Popped(Earlier(attempts), lane)
  }

  function Succeeded(attempts: seq<Attempt>): seq<Attempt> {
    if attempts == [] then []
    else if Last(attempts).result.Written? then Succeeded(Earlier(attempts)) + [Last(attempts)]
    else Succeeded(Earlier(attempts))
  }

  function Windowed(writes: seq<Attempt>): seq<Attempt> {
    if writes == [] then []
    else if Last(writes).job.windowed then Windowed(Earlier(writes)) + [Last(writes)]
    else Windowed(Earlier(writes))
  }

  predicate Outranks(a: Lane, b: Lane) {
    (a == Retransmits && b != Retransmits) || (a == Commands && b == Background)
  }

  function Smoothed(weight: real, seed: real, samples: seq<real>): real {
    if samples == [] then seed
    else Blend(weight, Smoothed(weight, seed, Earlier(samples)), Last(samples))
  }

  /** The mean deviation is taken from the estimate before the sample enters it. */
  function Deviation(cfg: Config, samples: seq<real>): real {
    if samples == [] then 0.0
    else
      Blend(cfg.varBeta, Deviation(cfg, Earlier(samples)),
            Abs(Last(samples) - Smoothed(cfg.ewmaAlpha, cfg.seedLatency, Earlier(samples))))
  }

  // ---- The invariant --------------------------------------------------------------------

  predicate WindowOk(cfg: Config, st: State) {
    && cfg.windowMin <= st.window <= cfg.windowMax
    && (st.window < cfg.windowMax ==> st.cleanAcks < cfg.growAcks)
    && (st.consecutiveTimeouts >= cfg.collapseTimeouts ==> st.window == cfg.windowMin)
    && (st.collapsed ==> st.window == cfg.windowMin)
  }

  /** Slots are few, in the order they were taken, and none is from the future. */
  ghost predicate SlotsOk(cfg: Config, slots: seq<Slot>, clock: Instant) {
    && |slots| <= cfg.windowMax
    && Sorted(slots)
    && (forall f | f in slots :: f.sentAt <= clock)
  }

  /** A windowed frame is taken only while the window has room. */
  ghost predicate WindowKept(cfg: Config, attempts: seq<Attempt>) {
    forall a | a in attempts && a.job.windowed :: a.held < a.window <= cfg.windowMax
  }

  /** Every slot ever taken was acked, expired or is still held. */
  ghost predicate Conserved(past: History, held: seq<Slot>) {
    multiset(past.taken) == multiset(past.acked) + multiset(past.expired) + multiset(held)
  }

  /** A slot with no response to come is held for the fixed time, any other one for a response timeout. */
  predicate HeldWithin(cfg: Config, f: Slot) {
    if f.kind.Silent? then f.deadline == f.sentAt + cfg.silentHold
    else f.sentAt + cfg.rtoMin <= f.deadline <= f.sentAt + cfg.rtoMax
  }

  predicate TookFor(cfg: Config, f: Slot, w: Attempt) {
    w.result.Written? && f.kind == w.job.kind && f.sentAt == w.result.sent && HeldWithin(cfg, f)
  }

  /** Each windowed write took one slot, for its own response and from the instant it was sent. */
  ghost predicate OneSlotEach(cfg: Config, taken: seq<Slot>, windowed: seq<Attempt>) {
    && |taken| == |windowed|
    && (forall i | 0 <= i < |taken| :: TookFor(cfg, taken[i], windowed[i]))
  }

  ghost predicate Spaced(cfg: Config, w: seq<Attempt>, lastSend: Option<Instant>, clock: Instant) {
    && (forall a | a in w :: a.result.Written? && a.start <= a.result.sent)
    && (forall i, j | 0 <= i < j < |w| :: w[i].result.sent + cfg.minGap <= w[j].start)
    && lastSend == (if w == [] then None else Some(Last(w).result.sent))
    && (w != [] ==> Last(w).result.sent <= clock)
  }

  /** No attempt after a `!` starts before its pause is over, and no pause lasts longer than it should. */
  ghost predicate PausesKept(cfg: Config, past: History, pausedUntil: Option<Instant>) {
    && (pausedUntil.Some? ==> pausedUntil.value <= past.clock + cfg.errorPause)
    && (forall e | e in past.errors ::
          e.1 <= |past.attempts| && pausedUntil.Some? && e.0 + cfg.errorPause <= pausedUntil.value)
    && (forall e, i | e in past.errors && e.1 <= i < |past.attempts| ::
          e.0 + cfg.errorPause <= past.attempts[i].start)
  }

  /** On each lane, what was submitted is what was taken off it followed by what waits. */
  ghost predicate InOrder(submitted: seq<Job>, attempts: seq<Attempt>, lanes: Lanes) {
    && (forall lane :: OnLane(submitted, lane) == Popped(attempts, lane) + lanes.Of(lane))
    && (forall lane, job | job in lanes.Of(lane) :: LaneOf(job) == lane)
    && (forall a | a in attempts :: LaneOf(a.job) == a.lane)
  }

  /** When a frame was taken, everything submitted by then on a lane that outranks its own had been taken already. */
  ghost predicate Ranked(submitted: seq<Job>, attempts: seq<Attempt>) {
    forall i | 0 <= i < |attempts| :: RankedAt(submitted, attempts[..i], attempts[i])
  }

  ghost predicate RankedAt(submitted: seq<Job>, earlier: seq<Attempt>, a: Attempt) {
    && a.seen <= |submitted|
    && forall lane | Outranks(lane, a.lane) :: OnLane(submitted[..a.seen], lane) == Popped(earlier, lane)
  }

  ghost predicate Estimated(cfg: Config, st: State, past: History) {
    && st.ewma == Smoothed(cfg.ewmaAlpha, cfg.seedLatency, past.samples)
    && st.variance == Deviation(cfg, past.samples)
    && |past.samples| == |past.acked|
    && (forall x | x in past.samples :: x >= 0.0)
  }

  ghost predicate Safe(cfg: Config, s: System) {
    && WindowOk(cfg, s.st)
    && SlotsOk(cfg, s.st.inFlight, s.past.clock)
    && WindowKept(cfg, s.past.attempts)
    && Conserved(s.past, s.st.inFlight)
    && OneSlotEach(cfg, s.past.taken, Windowed(s.past.writes))
    && s.past.writes == Succeeded(s.past.attempts)
    && Spaced(cfg, s.past.writes, s.st.lastSend, s.past.clock)
    && PausesKept(cfg, s.past, s.st.pausedUntil)
    && InOrder(s.past.submitted, s.past.attempts, s.lanes)
    && Ranked(s.past.submitted, s.past.attempts)
    && Estimated(cfg, s.st, s.past)
  }

  lemma StartIsSafe(cfg: Config, clock: Instant)
    requires Sane(cfg)
    ensures Safe(cfg, Start(cfg, clock))
  {}

  // ---- Each move keeps it ---------------------------------------------------------------

  lemma AckKeepsSlots(cfg: Config, st: State, past: History, sig: AckSignal, at: Instant)
    requires SlotsOk(cfg, st.inFlight, past.clock) && Conserved(past, st.inFlight) && past.clock <= at
    ensures SlotsOk(cfg, AfterAck(cfg, st, sig, at).inFlight, at)
    ensures Conserved(Acked(past, st.inFlight, sig, at), AfterAck(cfg, st, sig, at).inFlight)
  {
    var found := FirstMatch(st.inFlight, sig);
    if found.Some? {
      WithoutKeepsTheRest(st.inFlight, found.value);
    }
  }

  lemma AckKeepsEstimate(cfg: Config, st: State, past: History, sig: AckSignal, at: Instant)
    requires Estimated(cfg, st, past) && forall f | f in st.inFlight :: f.sentAt <= at
    ensures Estimated(cfg, AfterAck(cfg, st, sig, at), Acked(past, st.inFlight, sig, at))
  {
    if FirstMatch(st.inFlight, sig).Some? {
      var later := Acked(past, st.inFlight, sig, at).samples;
      assert later[..|past.samples|] == past.samples;
    }
  }

  lemma AckKeepsWindow(cfg: Config, st: State, sig: AckSignal, at: Instant)
    requires Sane(cfg) && WindowOk(cfg, st)
    ensures WindowOk(cfg, AfterAck(cfg, st, sig, at))
    ensures AfterAck(cfg, st, sig, at).pausedUntil == st.pausedUntil
    ensures AfterAck(cfg, st, sig, at).lastSend == st.lastSend
  {}

  /** A move that touches neither lanes nor attempts keeps what is said of those. */
  lemma OtherwiseUnchanged(cfg: Config, s: System, t: System)
    requires Safe(cfg, s)
    requires t == s.(st := t.st, past := s.past.(clock := t.past.clock, log := t.past.log, acked := t.past.acked,
                                                 samples := t.past.samples, expired := t.past.expired,
                                                 outcomes := t.past.outcomes))
    requires s.past.clock <= t.past.clock && t.st.pausedUntil == s.st.pausedUntil && t.st.lastSend == s.st.lastSend
    requires WindowOk(cfg, t.st) && SlotsOk(cfg, t.st.inFlight, t.past.clock)
    requires Conserved(t.past, t.st.inFlight) && Estimated(cfg, t.st, t.past)
    ensures Safe(cfg, t)
  {}

  lemma AckIsSafe(cfg: Config, s: System, sig: AckSignal, at: Instant)
    requires Sane(cfg) && Safe(cfg, s) && s.past.clock <= at
    ensures Safe(cfg, DoAck(cfg, s, sig, at))
  {
    AckKeepsWindow(cfg, s.st, sig, at);
    AckKeepsSlots(cfg, s.st, Logged(s.past, Ack(sig, at)), sig, at);
    AckKeepsEstimate(cfg, s.st, Logged(s.past, Ack(sig, at)), sig, at);
    OtherwiseUnchanged(cfg, s, DoAck(cfg, s, sig, at));
  }

  lemma ErrorIsSafe(cfg: Config, s: System, at: Instant)
    requires Sane(cfg) && Safe(cfg, s) && s.past.clock <= at
    ensures Safe(cfg, DoError(cfg, s, at))
  {}

  lemma SubmitKeepsOrder(s: System, job: Job)
    requires InOrder(s.past.submitted, s.past.attempts, s.lanes)
    ensures InOrder(s.past.submitted + [job], s.past.attempts, DoSubmit(s, job).lanes)
  {
    var more := s.past.submitted + [job];
    assert Earlier(more) == s.past.submitted;
    forall lane
      ensures OnLane(more, lane) == Popped(s.past.attempts, lane) + DoSubmit(s, job).lanes.Of(lane)
      ensures forall j | j in DoSubmit(s, job).lanes.Of(lane) :: LaneOf(j) == lane
    {
      assert OnLane(s.past.submitted, lane) == Popped(s.past.attempts, lane) + s.lanes.Of(lane);
      if lane == LaneOf(job) {
        assert DoSubmit(s, job).lanes.Of(lane) == s.lanes.Of(lane) + [job];
      } else {
        assert DoSubmit(s, job).lanes.Of(lane) == s.lanes.Of(lane);
      }
    }
  }

  lemma SubmitKeepsRanks(submitted: seq<Job>, attempts: seq<Attempt>, job: Job)
    requires Ranked(submitted, attempts)
    ensures Ranked(submitted + [job], attempts)
  {
    forall i | 0 <= i < |attempts|
      ensures RankedAt(submitted + [job], attempts[..i], attempts[i])
    {
      assert RankedAt(submitted, attempts[..i], attempts[i]);
      assert (submitted + [job])[..attempts[i].seen] == submitted[..attempts[i].seen];
    }
  }

  lemma SubmitIsSafe(cfg: Config, s: System, job: Job)
    requires Safe(cfg, s)
    ensures Safe(cfg, DoSubmit(s, job))
  {
    SubmitKeepsOrder(s, job);
    SubmitKeepsRanks(s.past.submitted, s.past.attempts, job);
  }

  lemma ExpireKeepsSlots(cfg: Config, slots: seq<Slot>, past: History, now: Instant)
    requires SlotsOk(cfg, slots, past.clock) && Conserved(past, slots) && past.clock <= now
    ensures SlotsOk(cfg, Live(slots, now), now)
    ensures Conserved(Buried(past, Dead(slots, now), now), Live(slots, now))
  {
    ExpirySplits(slots, now);
    LiveIsSorted(slots, now);
  }

  lemma ExpireKeepsWindow(cfg: Config, st: State, now: Instant)
    requires Sane(cfg) && WindowOk(cfg, st)
    ensures WindowOk(cfg, AfterExpiry(cfg, st, now))
    ensures AfterExpiry(cfg, st, now).inFlight == Live(st.inFlight, now)
  {}

  lemma ExpireIsSafe(cfg: Config, s: System, now: Instant)
    requires Sane(cfg) && Safe(cfg, s) && s.past.clock <= now
    ensures Safe(cfg, DoExpire(cfg, s, now))
  {
    ExpireKeepsWindow(cfg, s.st, now);
    ExpireKeepsSlots(cfg, s.st.inFlight, s.past, now);
    OtherwiseUnchanged(cfg, s, DoExpire(cfg, s, now));
  }

  predicate MayWrite(cfg: Config, s: System, lane: Lane, write: WriteResult) {
    && s.lanes.Front() == Some(lane)
    && GateOf(cfg, s.st, lane != Retransmits, s.past.clock) == Ready
    && (write.Written? ==> s.past.clock <= write.sent)
  }

  lemma WriteKeepsWindow(cfg: Config, s: System, lane: Lane, write: WriteResult)
    requires Sane(cfg) && MayWrite(cfg, s, lane, write) && LaneOf(s.lanes.Of(lane)[0]) == lane
    requires WindowOk(cfg, s.st) && WindowKept(cfg, s.past.attempts)
    ensures WindowOk(cfg, DoWrite(cfg, s, lane, write).st)
    ensures WindowKept(cfg, DoWrite(cfg, s, lane, write).past.attempts)
  {}

  lemma OneMoreSlot(cfg: Config, slots: seq<Slot>, clock: Instant, f: Slot)
    requires SlotsOk(cfg, slots, clock) && |slots| < cfg.windowMax && clock <= f.sentAt
    ensures SlotsOk(cfg, slots + [f], f.sentAt)
  {}

  lemma WriteKeepsSlots(cfg: Config, s: System, lane: Lane, write: WriteResult)
    requires Sane(cfg) && MayWrite(cfg, s, lane, write) && LaneOf(s.lanes.Of(lane)[0]) == lane
    requires WindowOk(cfg, s.st) && SlotsOk(cfg, s.st.inFlight, s.past.clock) && Conserved(s.past, s.st.inFlight)
    ensures var t := DoWrite(cfg, s, lane, write);
            SlotsOk(cfg, t.st.inFlight, t.past.clock) && Conserved(t.past, t.st.inFlight)
  {
    var t := DoWrite(cfg, s, lane, write);
    if write.Written? && lane != Retransmits {
      OneMoreSlot(cfg, s.st.inFlight, s.past.clock, Last(t.st.inFlight));
    }
  }

  lemma WriteTakesOneSlot(cfg: Config, s: System, lane: Lane, write: WriteResult)
    requires Sane(cfg) && s.lanes.Of(lane) != []
    requires OneSlotEach(cfg, s.past.taken, Windowed(s.past.writes))
    ensures var past := DoWrite(cfg, s, lane, write).past; OneSlotEach(cfg, past.taken, Windowed(past.writes))
  {
    if write.Written? {
      var writes := DoWrite(cfg, s, lane, write).past.writes;
      assert Earlier(writes) == s.past.writes;
    }
  }

  lemma SpacedOneMore(cfg: Config, w: seq<Attempt>, lastSend: Option<Instant>, clock: Instant, a: Attempt)
    requires Spaced(cfg, w, lastSend, clock) && a.result.Written? && a.start <= a.result.sent
    requires lastSend.Some? ==> lastSend.value + cfg.minGap <= a.start
    ensures Spaced(cfg, w + [a], Some(a.result.sent), a.result.sent)
  {
    var n := |w|;
    forall i | 0 <= i < n
      ensures w[i].result.Written? && w[i].result.sent + cfg.minGap <= a.start
    {
      assert w[i] in w;
      if i < n - 1 {
        assert w[i].result.sent + cfg.minGap <= w[n - 1].start && w[n - 1] in w;
      }
    }
  }

  lemma WriteKeepsSpacing(cfg: Config, s: System, lane: Lane, write: WriteResult)
    requires MayWrite(cfg, s, lane, write) && cfg.rtoMin <= cfg.rtoMax
    requires s.past.writes == Succeeded(s.past.attempts)
    requires Spaced(cfg, s.past.writes, s.st.lastSend, s.past.clock)
    ensures var t := DoWrite(cfg, s, lane, write);
            && t.past.writes == Succeeded(t.past.attempts)
            && Spaced(cfg, t.past.writes, t.st.lastSend, t.past.clock)
  {
    var t := DoWrite(cfg, s, lane, write);
    assert Earlier(t.past.attempts) == s.past.attempts;
    assert ReadyAt(cfg, s.st, s.past.clock) == s.past.clock;
    if write.Written? {
      SpacedOneMore(cfg, s.past.writes, s.st.lastSend, s.past.clock, Last(t.past.attempts));
    }
  }

  lemma WriteKeepsPauses(cfg: Config, s: System, lane: Lane, write: WriteResult)
    requires MayWrite(cfg, s, lane, write) && cfg.rtoMin <= cfg.rtoMax && PausesKept(cfg, s.past, s.st.pausedUntil)
    ensures PausesKept(cfg, DoWrite(cfg, s, lane, write).past, DoWrite(cfg, s, lane, write).st.pausedUntil)
  {
    assert ReadyAt(cfg, s.st, s.past.clock) == s.past.clock;
  }

  lemma WriteKeepsOrder(submitted: seq<Job>, attempts: seq<Attempt>, lanes: Lanes, a: Attempt)
    requires lanes.Of(a.lane) != [] && a.job == lanes.Of(a.lane)[0]
    requires InOrder(submitted, attempts, lanes)
    ensures InOrder(submitted, attempts + [a], lanes.With(a.lane, lanes.Of(a.lane)[1..]))
  {
    var queue := lanes.Of(a.lane);
    var after := lanes.With(a.lane, queue[1..]);
    forall lane
      ensures OnLane(submitted, lane) == Popped(attempts + [a], lane) + after.Of(lane)
      ensures forall j | j in after.Of(lane) :: LaneOf(j) == lane
    {
      assert OnLane(submitted, lane) == Popped(attempts, lane) + lanes.Of(lane);
      WithChangesOne(lanes, a.lane, queue[1..], lane);
      PoppedOneMore(attempts, a, lane);
      if lane == a.lane {
        HeadMoves(Popped(attempts, lane), queue);
      }
    }
    assert LaneOf(a.job) == a.lane by {
      assert queue[0] in lanes.Of(a.lane);
    }
  }

  lemma PoppedOneMore(attempts: seq<Attempt>, a: Attempt, lane: Lane)
    ensures Popped(attempts + [a], lane)
         == if a.lane == lane then Popped(attempts, lane) + [a.job] else Popped(attempts, lane)
  {
    assert Earlier(attempts + [a]) == attempts;
  }

  lemma HeadMoves(done: seq<Job>, queue: seq<Job>)
    requires queue != []
    ensures done + queue == (done + [queue[0]]) + queue[1..]
  {}

  lemma WithChangesOne(lanes: Lanes, lane: Lane, jobs: seq<Job>, other: Lane)
    ensures lanes.With(lane, jobs).Of(other) == if other == lane then jobs else lanes.Of(other)
  {}

  lemma WriteKeepsRanks(submitted: seq<Job>, attempts: seq<Attempt>, lanes: Lanes, a: Attempt)
    requires lanes.Front() == Some(a.lane) && a.seen == |submitted|
    requires InOrder(submitted, attempts, lanes) && Ranked(submitted, attempts)
    ensures Ranked(submitted, attempts + [a])
  {
    assert (attempts + [a])[..|attempts|] == attempts && submitted[..|submitted|] == submitted;
    forall lane | Outranks(lane, a.lane)
      ensures OnLane(submitted, lane) == Popped(attempts, lane)
    {
      assert OnLane(submitted, lane) == Popped(attempts, lane) + lanes.Of(lane);
    }
    forall i | 0 <= i < |attempts|
      ensures RankedAt(submitted, (attempts + [a])[..i], attempts[i])
    {
      assert RankedAt(submitted, attempts[..i], attempts[i]);
      assert (attempts + [a])[..i] == attempts[..i];
    }
  }

  lemma WriteKeepsLanes(cfg: Config, s: System, lane: Lane, write: WriteResult)
    requires cfg.rtoMin <= cfg.rtoMax && MayWrite(cfg, s, lane, write)
    requires InOrder(s.past.submitted, s.past.attempts, s.lanes) && Ranked(s.past.submitted, s.past.attempts)
    ensures var t := DoWrite(cfg, s, lane, write);
            InOrder(t.past.submitted, t.past.attempts, t.lanes) && Ranked(t.past.submitted, t.past.attempts)
  {
    var a := Attempt(s.lanes.Of(lane)[0], lane, s.past.clock, write, |s.st.inFlight|, s.st.window, |s.past.submitted|,
                     |s.past.samples|);
    assert DoWrite(cfg, s, lane, write).past.attempts == s.past.attempts + [a];
    WriteKeepsOrder(s.past.submitted, s.past.attempts, s.lanes, a);
    WriteKeepsRanks(s.past.submitted, s.past.attempts, s.lanes, a);
  }

  lemma WriteKeepsEstimate(cfg: Config, s: System, lane: Lane, write: WriteResult)
    requires cfg.rtoMin <= cfg.rtoMax && s.lanes.Of(lane) != [] && Estimated(cfg, s.st, s.past)
    ensures Estimated(cfg, DoWrite(cfg, s, lane, write).st, DoWrite(cfg, s, lane, write).past)
  {}

  lemma TogetherSafe(cfg: Config, s: System)
    requires WindowOk(cfg, s.st) && SlotsOk(cfg, s.st.inFlight, s.past.clock) && WindowKept(cfg, s.past.attempts)
    requires Conserved(s.past, s.st.inFlight) && OneSlotEach(cfg, s.past.taken, Windowed(s.past.writes))
    requires s.past.writes == Succeeded(s.past.attempts)
    requires Spaced(cfg, s.past.writes, s.st.lastSend, s.past.clock) && PausesKept(cfg, s.past, s.st.pausedUntil)
    requires InOrder(s.past.submitted, s.past.attempts, s.lanes) && Ranked(s.past.submitted, s.past.attempts)
    requires Estimated(cfg, s.st, s.past)
    ensures Safe(cfg, s)
  {}

  lemma WriteIsSafe(cfg: Config, s: System, lane: Lane, write: WriteResult)
    requires Sane(cfg) && Safe(cfg, s) && MayWrite(cfg, s, lane, write)
    ensures Safe(cfg, DoWrite(cfg, s, lane, write))
  {
    assert s.lanes.Of(lane)[0] in s.lanes.Of(lane);
    WriteKeepsWindow(cfg, s, lane, write);
    WriteKeepsSlots(cfg, s, lane, write);
    WriteTakesOneSlot(cfg, s, lane, write);
    WriteKeepsSpacing(cfg, s, lane, write);
    WriteKeepsPauses(cfg, s, lane, write);
    WriteKeepsLanes(cfg, s, lane, write);
    WriteKeepsEstimate(cfg, s, lane, write);
    TogetherSafe(cfg, DoWrite(cfg, s, lane, write));
  }

  lemma StepIsSafe(cfg: Config, s: System, a: Action)
    requires Sane(cfg) && Safe(cfg, s) && Timely(s, a)
    ensures Safe(cfg, Step(cfg, s, a))
  {
    match a
    case Ack(sig, at) => AckIsSafe(cfg, s, sig, at);
    case Error(at) => ErrorIsSafe(cfg, s, at);
    case Submit(job) => SubmitIsSafe(cfg, s, job);
    case Turn(now, write) =>
      var logged := s.(past := Logged(s.past, a));
      OtherwiseUnchanged(cfg, s, logged);
      ExpireIsSafe(cfg, logged, now);
      var expired := DoExpire(cfg, logged, now);
      match PlanOf(cfg, expired.st, s.lanes, now)
      case Write(lane) => WriteIsSafe(cfg, expired, lane, write);
      case Sleep(_) =>
  }

  lemma {:induction false} RunIsSafe(cfg: Config, s: System, actions: seq<Action>)
    requires Sane(cfg) && Safe(cfg, s) && Feasible(cfg, s, actions)
    ensures Safe(cfg, Run(cfg, s, actions))
    decreases |actions|
  {
    if actions != [] {
      StepIsSafe(cfg, s, actions[0]);
      RunIsSafe(cfg, Step(cfg, s, actions[0]), actions[1..]);
    }
  }

  /** A state some run of the controller reaches. */
  ghost predicate Reachable(cfg: Config, s: System)
    requires cfg.rtoMin <= cfg.rtoMax
  {
    exists clock, actions :: Feasible(cfg, Start(cfg, clock), actions) && s == Run(cfg, Start(cfg, clock), actions)
  }

  lemma ReachableIsSafe(cfg: Config, s: System)
    requires Sane(cfg) && Reachable(cfg, s)
    ensures Safe(cfg, s)
  {
    var clock, actions :| Feasible(cfg, Start(cfg, clock), actions) && s == Run(cfg, Start(cfg, clock), actions);
    StartIsSafe(cfg, clock);
    RunIsSafe(cfg, Start(cfg, clock), actions);
  }

  // ---- What it means --------------------------------------------------------------------

  /** Windowed writes are acks, expiries and slots held, and the slots never outnumber the largest window. */
  lemma SlotsAreConserved(cfg: Config, s: System)
    requires Sane(cfg) && Reachable(cfg, s)
    ensures |Windowed(s.past.writes)| == |s.past.acked| + |s.past.expired| + |s.st.inFlight|
    ensures |s.st.inFlight| <= cfg.windowMax
    ensures forall f | f in s.st.inFlight :: HeldWithin(cfg, f)
  {
    ReachableIsSafe(cfg, s);
    assert |multiset(s.past.taken)| == |multiset(s.past.acked) + multiset(s.past.expired) + multiset(s.st.inFlight)|;
    forall f | f in s.st.inFlight
      ensures HeldWithin(cfg, f)
    {
      assert f in multiset(s.past.taken);
      assert f in s.past.taken;
    }
  }

  /** Frames leave a lane in the order they joined it: none is lost, duplicated or overtaken there. */
  lemma LanesAreFifo(cfg: Config, s: System, lane: Lane)
    requires Sane(cfg) && Reachable(cfg, s)
    ensures OnLane(s.past.submitted, lane) == Popped(s.past.attempts, lane) + s.lanes.Of(lane)
  {
    ReachableIsSafe(cfg, s);
  }

  /** A background frame is taken only when every retransmit and command submitted by then has been taken, and a
      command only when every retransmit has. */
  lemma HigherLanesGoFirst(cfg: Config, s: System, i: nat, lane: Lane)
    requires Sane(cfg) && Reachable(cfg, s)
    requires i < |s.past.attempts| && Outranks(lane, s.past.attempts[i].lane)
    ensures s.past.attempts[i].seen <= |s.past.submitted|
    ensures OnLane(s.past.submitted[..s.past.attempts[i].seen], lane) == Popped(s.past.attempts[..i], lane)
  {
    ReachableIsSafe(cfg, s);
    assert RankedAt(s.past.submitted, s.past.attempts[..i], s.past.attempts[i]);
  }

  /** When the writes were sent. */
  function SentTimes(w: seq<Attempt>): (ts: seq<Instant>)
    ensures |ts| == |w|
  {
    seq(|w|, i requires 0 <= i < |w| => if w[i].result.Written? then w[i].result.sent else w[i].start)
  }

  predicate Apart(ts: seq<Instant>, gap: Duration) {
    forall i, j | 0 <= i < j < |ts| :: ts[i] + gap <= ts[j]
  }

  /** Successive writes, windowed or not, are at least the floor apart. */
  lemma WritesAreApart(cfg: Config, s: System)
    requires Sane(cfg) && Reachable(cfg, s)
    ensures s.past.writes == Succeeded(s.past.attempts) && Apart(SentTimes(s.past.writes), cfg.minGap)
  {
    ReachableIsSafe(cfg, s);
    SpacedIsApart(cfg, s.past.writes, s.st.lastSend, s.past.clock);
  }

  lemma SpacedIsApart(cfg: Config, w: seq<Attempt>, lastSend: Option<Instant>, clock: Instant)
    requires Spaced(cfg, w, lastSend, clock)
    ensures Apart(SentTimes(w), cfg.minGap)
  {
    forall i, j | 0 <= i < j < |w|
      ensures SentTimes(w)[i] + cfg.minGap <= SentTimes(w)[j]
    {
      assert w[i] in w && w[j] in w;
    }
  }

  /** How many of the times lie within an interval. */
  function CountWithin(ts: seq<Instant>, from: Instant, to: Instant): nat {
    if ts == [] then 0
    else if from <= Last(ts) <= to then CountWithin(Earlier(ts), from, to) + 1
    else CountWithin(Earlier(ts), from, to)
  }

  function Gaps(n: nat, gap: Duration): Duration {
    if n == 0 then 0.0 else Gaps(n - 1, gap) + gap
  }

  lemma {:induction false} GapsIsProduct(n: nat, gap: Duration)
    ensures Gaps(n, gap) == n as real * gap
  {
    if n > 0 {
      GapsIsProduct(n - 1, gap);
      assert n as real == (n - 1) as real + 1.0;
    }
  }

  lemma {:induction false} FewWithin(ts: seq<Instant>, gap: Duration, from: Instant, to: Instant)
    requires Apart(ts, gap)
    ensures CountWithin(ts, from, to) > 0 ==>
              Gaps(CountWithin(ts, from, to) - 1, gap) <= Min(Last(ts), to) - from
  {
    if ts != [] {
      FewWithin(Earlier(ts), gap, from, to);
      if |ts| > 1 {
        assert ts[|ts| - 2] + gap <= Last(ts);
      }
    }
  }

  /** The line rate is respected over every interval: at most its length over the gap, plus one. */
  lemma RateIsBounded(cfg: Config, s: System, from: Instant, to: Instant)
    requires Sane(cfg) && Reachable(cfg, s) && from <= to && cfg.minGap > 0.0
    ensures CountWithin(SentTimes(s.past.writes), from, to) as real <= (to - from) / cfg.minGap + 1.0
  {
    WritesAreApart(cfg, s);
    FewWithin(SentTimes(s.past.writes), cfg.minGap, from, to);
    CountFits(CountWithin(SentTimes(s.past.writes), from, to), cfg.minGap, to - from);
  }

  lemma CountFits(n: nat, gap: Duration, length: Duration)
    requires gap > 0.0 && (n > 0 ==> Gaps(n - 1, gap) <= length)
    ensures n as real <= length / gap + 1.0
  {
    if n > 0 {
      GapsIsProduct(n - 1, gap);
      AtMostQuotient((n - 1) as real, gap, length);
    }
  }

  lemma AtMostQuotient(x: real, gap: real, length: real)
    requires gap > 0.0 && x * gap <= length
    ensures x <= length / gap
  {}

  /** After a `!`, every frame, retransmits included, waits out the pause. */
  lemma ErrorsPauseAllWrites(cfg: Config, s: System, e: (Instant, nat), i: nat)
    requires Sane(cfg) && Reachable(cfg, s)
    requires e in s.past.errors && e.1 <= i < |s.past.attempts|
    ensures e.0 + cfg.errorPause <= s.past.attempts[i].start
  {
    ReachableIsSafe(cfg, s);
  }

  predicate NotBefore(a: Option<Instant>, b: Option<Instant>) {
    a.None? || (b.Some? && a.value <= b.value)
  }

  lemma {:induction false} PauseNeverShrinks(cfg: Config, s: System, actions: seq<Action>)
    requires Sane(cfg)
    ensures NotBefore(s.st.pausedUntil, Run(cfg, s, actions).st.pausedUntil)
    decreases |actions|
  {
    if actions != [] {
      StepKeepsPause(cfg, s, actions[0]);
      PauseNeverShrinks(cfg, Step(cfg, s, actions[0]), actions[1..]);
    }
  }

  lemma StepKeepsPause(cfg: Config, s: System, a: Action)
    requires Sane(cfg)
    ensures NotBefore(s.st.pausedUntil, Step(cfg, s, a).st.pausedUntil)
  {
    if a.Turn? {
      assert AfterExpiry(cfg, s.st, a.now).pausedUntil == s.st.pausedUntil;
    }
  }
}
