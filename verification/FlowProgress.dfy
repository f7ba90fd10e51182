/** The controller makes progress: with work queued it always wakes for a reason, and not often in vain. */
module FlowProgress {
  import opened FlowControl
  import opened FlowDriver
  import opened FlowSafety
  import opened Wrappers

  // ---- Why and how long it sleeps -------------------------------------------------------

  function LongestHold(cfg: Config): Duration {
    Max(cfg.rtoMax, cfg.silentHold)
  }

  function LongestGate(cfg: Config): Duration {
    Max(cfg.errorPause, cfg.minGap)
  }

  /** What a plan to sleep waits for, once no slot held is past its deadline. */
  lemma SleepHasReason(cfg: Config, st: State, lanes: Lanes, now: Instant)
    requires st.window >= 1 && !lanes.Idle() && PlanOf(cfg, st, lanes, now).Sleep?
    requires forall i | 0 <= i < |st.inFlight| :: st.inFlight[i].deadline > now
    ensures var until := PlanOf(cfg, st, lanes, now).until;
            && until > now
            && ((exists i | 0 <= i < |st.inFlight| :: st.inFlight[i].deadline == until)
                || (until == ReadyAt(cfg, st, now) && (|st.inFlight| < st.window || lanes.retransmits != [])))
            && (forall i | 0 <= i < |st.inFlight| :: until <= st.inFlight[i].deadline)
            && (|st.inFlight| < st.window || lanes.retransmits != [] ==> until <= ReadyAt(cfg, st, now))
  {
    assert lanes.Front().Some?;
  }

  /** With work queued, a sleep ends when a slot held falls due or when the floor and pause allow the next write. */
  lemma WakesForAReason(cfg: Config, s: System, now: Instant)
    requires Sane(cfg) && WindowOk(cfg, s.st) && !s.lanes.Idle() && Sleeps(cfg, s, now)
    ensures var st, until := AfterExpiry(cfg, s.st, now), PlanAt(cfg, s, now).until;
            && until > now
            && ((exists i | 0 <= i < |st.inFlight| :: st.inFlight[i].deadline == until)
                || (until == ReadyAt(cfg, st, now) && (|st.inFlight| < st.window || s.lanes.retransmits != [])))
  {
    ExpireKeepsWindow(cfg, s.st, now);
    ExpirySplits(s.st.inFlight, now);
    var st := AfterExpiry(cfg, s.st, now);
    assert forall i | 0 <= i < |st.inFlight| :: st.inFlight[i] in st.inFlight;
    SleepHasReason(cfg, st, s.lanes, now);
  }

  /** Of these it is the first. */
  lemma WakesAtTheFirst(cfg: Config, s: System, now: Instant)
    requires Sane(cfg) && WindowOk(cfg, s.st) && !s.lanes.Idle() && Sleeps(cfg, s, now)
    ensures var st, until := AfterExpiry(cfg, s.st, now), PlanAt(cfg, s, now).until;
            && (forall i | 0 <= i < |st.inFlight| :: until <= st.inFlight[i].deadline)
            && (|st.inFlight| < st.window || s.lanes.retransmits != [] ==> until <= ReadyAt(cfg, st, now))
  {
    ExpireKeepsWindow(cfg, s.st, now);
    ExpirySplits(s.st.inFlight, now);
    var st := AfterExpiry(cfg, s.st, now);
    assert forall i | 0 <= i < |st.inFlight| :: st.inFlight[i] in st.inFlight;
    SleepHasReason(cfg, st, s.lanes, now);
  }

  /** With nothing queued the loop sleeps, until the first slot held falls due; for an hour if none is held. */
  lemma IdleSleeps(cfg: Config, s: System, now: Instant)
    requires s.lanes.retransmits == [] && s.lanes.commands == [] && s.lanes.background == []
    ensures Sleeps(cfg, s, now)
    ensures var slots, until := AfterExpiry(cfg, s.st, now).inFlight, PlanAt(cfg, s, now).until;
            && (slots == [] ==> until == now + 3600.0)
            && (slots != [] ==> exists i | 0 <= i < |slots| :: slots[i].deadline == until)
            && (forall i | 0 <= i < |slots| :: until <= slots[i].deadline)
  {}

  /** With work queued, a sleep is never longer than the longest hold, pause or gap: never the idle horizon. */
  lemma SleepIsBounded(cfg: Config, s: System, now: Instant)
    requires Sane(cfg) && Reachable(cfg, s) && s.past.clock <= now
    requires !s.lanes.Idle() && Sleeps(cfg, s, now)
    ensures now < PlanAt(cfg, s, now).until
    ensures PlanAt(cfg, s, now).until
         <= now + Max(LongestHold(cfg), LongestGate(cfg))
  {
    ReachableIsSafe(cfg, s);
    SlotsAreConserved(cfg, s);
    WakesForAReason(cfg, s, now);
    ExpireKeepsWindow(cfg, s.st, now);
    ExpirySplits(s.st.inFlight, now);
    GateOpensSoon(cfg, s.st, s.past, now);
    var st, until := AfterExpiry(cfg, s.st, now), PlanAt(cfg, s, now).until;
    if i :| 0 <= i < |st.inFlight| && st.inFlight[i].deadline == until {
      assert st.inFlight[i] in Live(s.st.inFlight, now);
    }
  }

  lemma GateOpensSoon(cfg: Config, st: State, past: History, now: Instant)
    requires Sane(cfg) && past.clock <= now
    requires Spaced(cfg, past.writes, st.lastSend, past.clock) && PausesKept(cfg, past, st.pausedUntil)
    ensures ReadyAt(cfg, AfterExpiry(cfg, st, now), now) <= now + LongestGate(cfg)
  {}

  // ---- How often it wakes in vain -------------------------------------------------------

  /** What the last turn sleeps for, if it sleeps. */
  function Alarm(cfg: Config, s: System, alarm: Option<Instant>, a: Action): Option<Instant> {
    match a
    case Turn(now, _) =>
      (match PlanAt(cfg, s, now)
       case Sleep(until) => Some(until)
       case Write(_) => None)
    case _ => alarm
  }

  predicate Rings(alarm: Option<Instant>, a: Action) {
    a.Turn? && alarm.Some? && alarm.value <= a.now
  }

  /** How many turns of a run are taken because the alarm set by the turn before rang. */
  function WakeUps(cfg: Config, s: System, alarm: Option<Instant>, actions: seq<Action>): nat
    requires cfg.rtoMin <= cfg.rtoMax
    decreases |actions|
  {
    if actions == [] then 0
    else
      var rest := WakeUps(cfg, Step(cfg, s, actions[0]), Alarm(cfg, s, alarm, actions[0]), actions[1..]);
      if Rings(alarm, actions[0]) then rest + 1 else rest
  }

  /** No frame is taken along the run, and no `!` arrives; acks and submissions may. */
  predicate InVain(cfg: Config, s: System, actions: seq<Action>)
    requires cfg.rtoMin <= cfg.rtoMax
    decreases |actions|
  {
    actions == [] || (VainStep(cfg, s, actions[0]) && InVain(cfg, Step(cfg, s, actions[0]), actions[1..]))
  }

  predicate VainStep(cfg: Config, s: System, a: Action) {
    !a.Error? && (a.Turn? ==> Sleeps(cfg, s, a.now))
  }

  /** When the alarm rings, a slot will have fallen due, or the gate will be open for the front frame. */
  predicate Due(cfg: Config, s: System, at: Instant) {
    || (exists i | 0 <= i < |s.st.inFlight| :: s.st.inFlight[i].deadline <= at)
    || (ReadyAt(cfg, s.st, at) == at && (|s.st.inFlight| < s.st.window || s.lanes.retransmits != []))
  }

  /** How many more wake-ups may be in vain. */
  function Patience(cfg: Config, s: System, alarm: Option<Instant>): nat {
    if alarm.Some? && !Due(cfg, s, alarm.value) then |s.st.inFlight| + 1 else |s.st.inFlight|
  }

  lemma AckKeepsPatience(cfg: Config, s: System, alarm: Option<Instant>, sig: AckSignal, at: Instant)
    requires Sane(cfg)
    ensures Patience(cfg, DoAck(cfg, s, sig, at), alarm) <= Patience(cfg, s, alarm)
  {
    var t := DoAck(cfg, s, sig, at);
    if FirstMatch(s.st.inFlight, sig).Some? {
      assert |t.st.inFlight| == |s.st.inFlight| - 1;
    } else {
      assert t.st == s.st && t.lanes == s.lanes;
    }
  }

  lemma SubmitKeepsPatience(cfg: Config, s: System, alarm: Option<Instant>, job: Job)
    ensures Patience(cfg, DoSubmit(s, job), alarm) <= Patience(cfg, s, alarm)
    ensures !DoSubmit(s, job).lanes.Idle()
  {}

  lemma {:induction false} DeadWhenDue(slots: seq<Slot>, now: Instant)
    ensures (exists i | 0 <= i < |slots| :: slots[i].deadline <= now) ==> |Live(slots, now)| < |slots|
    ensures (forall i | 0 <= i < |slots| :: slots[i].deadline > now) ==>
              Live(slots, now) == slots && Dead(slots, now) == []
    ensures |Live(slots, now)| <= |slots|
  {
    if slots != [] {
      DeadWhenDue(slots[1..], now);
      if i :| 0 < i < |slots| && slots[i].deadline <= now {
        assert slots[1..][i - 1].deadline <= now;
      }
    }
  }

  /** A turn in vain sets an alarm that will have a reason to ring. */
  lemma VainTurnIsDue(cfg: Config, s: System, now: Instant, write: WriteResult)
    requires Sane(cfg) && WindowOk(cfg, s.st) && !s.lanes.Idle() && Sleeps(cfg, s, now)
    ensures var t := DoTurn(cfg, s, now, write);
            t.lanes == s.lanes && |t.st.inFlight| <= |s.st.inFlight| &&
            Patience(cfg, t, Alarm(cfg, s, None, Turn(now, write))) == |t.st.inFlight|
  {
    WakesForAReason(cfg, s, now);
    DeadWhenDue(s.st.inFlight, now);
  }

  /** If the alarm had a reason to ring, waking in vain costs a slot. */
  lemma VainWakeUpCostsASlot(cfg: Config, s: System, now: Instant, alarm: Instant)
    requires Sane(cfg) && WindowOk(cfg, s.st) && !s.lanes.Idle() && Sleeps(cfg, s, now)
    requires alarm <= now && Due(cfg, s, alarm)
    ensures |AfterExpiry(cfg, s.st, now).inFlight| < |s.st.inFlight|
  {
    DeadWhenDue(s.st.inFlight, now);
    ExpireKeepsWindow(cfg, s.st, now);
    if ReadyAt(cfg, s.st, alarm) == alarm {
      OpenStaysOpen(cfg, s.st, alarm, now);
    }
  }

  lemma OpenStaysOpen(cfg: Config, st: State, at: Instant, now: Instant)
    requires ReadyAt(cfg, st, at) == at <= now
    ensures ReadyAt(cfg, st, now) == now
  {}

  lemma TurnCostsPatience(cfg: Config, s: System, alarm: Option<Instant>, a: Action)
    requires Sane(cfg) && WindowOk(cfg, s.st) && !s.lanes.Idle() && a.Turn? && Sleeps(cfg, s, a.now)
    ensures var t := Step(cfg, s, a);
            t.lanes == s.lanes && Patience(cfg, t, Alarm(cfg, s, alarm, a)) + (if Rings(alarm, a) then 1 else 0)
                                  <= Patience(cfg, s, alarm)
  {
    VainTurnIsDue(cfg, s, a.now, a.write);
    if Rings(alarm, a) && Due(cfg, s, alarm.value) {
      VainWakeUpCostsASlot(cfg, s, a.now, alarm.value);
    }
  }

  lemma VainStepCostsPatience(cfg: Config, s: System, alarm: Option<Instant>, a: Action)
    requires Sane(cfg) && WindowOk(cfg, s.st) && !s.lanes.Idle() && VainStep(cfg, s, a)
    ensures var t := Step(cfg, s, a);
            && WindowOk(cfg, t.st) && !t.lanes.Idle()
            && Patience(cfg, t, Alarm(cfg, s, alarm, a)) + (if Rings(alarm, a) then 1 else 0)
               <= Patience(cfg, s, alarm)
  {
    match a
    case Ack(sig, at) =>
      AckKeepsPatience(cfg, s, alarm, sig, at);
      AckKeepsWindow(cfg, s.st, sig, at);
    case Submit(job) => SubmitKeepsPatience(cfg, s, alarm, job);
    case Turn(now, _) =>
      TurnCostsPatience(cfg, s, alarm, a);
      ExpireKeepsWindow(cfg, s.st, now);
  }

  lemma {:induction false} PatienceRunsOut(cfg: Config, s: System, alarm: Option<Instant>, actions: seq<Action>)
    requires Sane(cfg) && WindowOk(cfg, s.st) && !s.lanes.Idle() && InVain(cfg, s, actions)
    ensures WakeUps(cfg, s, alarm, actions) <= Patience(cfg, s, alarm)
    decreases |actions|
  {
    if actions != [] {
      VainStepCostsPatience(cfg, s, alarm, actions[0]);
      PatienceRunsOut(cfg, Step(cfg, s, actions[0]), Alarm(cfg, s, alarm, actions[0]), actions[1..]);
    }
  }

  predicate NoErrors(actions: seq<Action>) {
    forall a | a in actions :: !a.Error?
  }

  lemma {:induction false} VainUnlessAttempted(cfg: Config, s: System, actions: seq<Action>)
    requires Sane(cfg) && NoErrors(actions)
    ensures |s.past.attempts| <= |Run(cfg, s, actions).past.attempts|
    ensures |s.past.attempts| == |Run(cfg, s, actions).past.attempts| ==> InVain(cfg, s, actions)
    decreases |actions|
  {
    if actions != [] {
      assert actions[0] in actions;
      VainUnlessAttempted(cfg, Step(cfg, s, actions[0]), actions[1..]);
      StepCountsAttempts(cfg, s, actions[0]);
    }
  }

  lemma StepCountsAttempts(cfg: Config, s: System, a: Action)
    requires Sane(cfg)
    ensures |Step(cfg, s, a).past.attempts|
         == |s.past.attempts| + if a.Turn? && !Sleeps(cfg, s, a.now) then 1 else 0
  {}

  /** With work queued and `n` slots held, whatever acks and submissions arrive and even if expiries collapse the
      window on the way, the (n + 1)-th wake-up at the latest finds a frame to write, if no `!` arrives. */
  lemma ProgressIsMade(cfg: Config, s: System, actions: seq<Action>)
    requires Sane(cfg) && Reachable(cfg, s) && !s.lanes.Idle() && NoErrors(actions)
    requires WakeUps(cfg, s, None, actions) > |s.st.inFlight|
    ensures |Run(cfg, s, actions).past.attempts| > |s.past.attempts|
  {
    ReachableIsSafe(cfg, s);
    VainUnlessAttempted(cfg, s, actions);
    if InVain(cfg, s, actions) {
      PatienceRunsOut(cfg, s, None, actions);
    }
  }
}
