/** What the history of a run decides: which response released each slot, how long slots are held, and the window, as
    folds over what became of the slots. */
module FlowOutcomes {
  import opened Bytes
  import opened FlowControl
  import opened FlowDriver
  import opened FlowSafety

  // ---- The window as a fold -------------------------------------------------------------

  /** The adaptive part of the controller. */
  datatype Tally = Tally(window: nat, clean: nat, timeouts: nat, collapsed: bool)

  function TallyOf(st: State): Tally {
    Tally(st.window, st.cleanAcks, st.consecutiveTimeouts, st.collapsed)
  }

  function Collapsed(cfg: Config, t: Tally): Tally {
    Tally(cfg.windowMin, 0, t.timeouts, t.collapsed || t.window > cfg.windowMin)
  }

  /** One outcome at a time: a slot answered, a slot past its deadline, or a `!`. */
  function TallyAfter(cfg: Config, t: Tally, o: Outcome): Tally {
    match o
    case Answered(_, _, _) =>
      if t.clean + 1 >= cfg.growAcks && t.window < cfg.windowMax then Tally(t.window + 1, 0, 0, false)
      else t.(clean := t.clean + 1, timeouts := 0)
    case TimedOut(slot) =>
      if slot.kind == Silent then t
      else if t.timeouts + 1 >= cfg.collapseTimeouts then Collapsed(cfg, t.(timeouts := t.timeouts + 1))
      else t.(clean := 0, timeouts := t.timeouts + 1)
    case Refused => Collapsed(cfg, t)
  }

  function Tallied(cfg: Config, outcomes: seq<Outcome>): Tally {
    if outcomes == [] then Tally(cfg.windowInitial, 0, 0, false)
    else TallyAfter(cfg, Tallied(cfg, Earlier(outcomes)), Last(outcomes))
  }

  lemma TalliedOneMore(cfg: Config, outcomes: seq<Outcome>, o: Outcome)
    ensures Tallied(cfg, outcomes + [o]) == TallyAfter(cfg, Tallied(cfg, outcomes), o)
  {
    assert Earlier(outcomes + [o]) == outcomes;
  }

  /** The state after `n` timeouts, however many expire at once. */
  predicate CountedTo(cfg: Config, before: State, n: nat, t: Tally) {
    if n == 0 then t == TallyOf(before)
    else if before.consecutiveTimeouts + n >= cfg.collapseTimeouts then
      t == Tally(cfg.windowMin, 0, before.consecutiveTimeouts + n, before.collapsed || before.window > cfg.windowMin)
    else t == Tally(before.window, 0, before.consecutiveTimeouts + n, before.collapsed)
  }

  lemma {:induction false} DeadAreTallied(cfg: Config, before: State, n: nat, outcomes: seq<Outcome>, dead: seq<Slot>)
    requires Sane(cfg) && WindowOk(cfg, before) && CountedTo(cfg, before, n, Tallied(cfg, outcomes))
    ensures CountedTo(cfg, before, n + Timeouts(dead), Tallied(cfg, outcomes + TimedOuts(dead)))
    decreases |dead|
  {
    if dead == [] {
      assert outcomes + [] == outcomes;
    } else {
      TalliedOneMore(cfg, outcomes, TimedOut(dead[0]));
      DeadAreTallied(cfg, before, if dead[0].kind == Silent then n else n + 1, outcomes + [TimedOut(dead[0])],
                     dead[1..]);
      Regroup(outcomes, [TimedOut(dead[0])], TimedOuts(dead[1..]));
    }
  }

  /** The state is that of the fold. */
  predicate Follows(cfg: Config, st: State, outcomes: seq<Outcome>) {
    TallyOf(st) == Tallied(cfg, outcomes)
  }

  lemma AckFollows(cfg: Config, st: State, past: History, sig: AckSignal, at: Instant)
    requires Follows(cfg, st, past.outcomes)
    ensures Follows(cfg, AfterAck(cfg, st, sig, at), Acked(past, st.inFlight, sig, at).outcomes)
  {
    var found := FirstMatch(st.inFlight, sig);
    if found.Some? {
      TalliedOneMore(cfg, past.outcomes, Answered(st.inFlight[found.value], sig, at));
    }
  }

  lemma ErrorFollows(cfg: Config, st: State, past: History, at: Instant)
    requires WindowOk(cfg, st) && Follows(cfg, st, past.outcomes)
    ensures Follows(cfg, AfterPciError(cfg, st, at), Refusal(past, at).outcomes)
  {
    TalliedOneMore(cfg, past.outcomes, Refused);
  }

  lemma ExpiryFollows(cfg: Config, st: State, past: History, now: Instant)
    requires Sane(cfg) && WindowOk(cfg, st) && Follows(cfg, st, past.outcomes)
    ensures Follows(cfg, AfterExpiry(cfg, st, now), Buried(past, Dead(st.inFlight, now), now).outcomes)
  {
    DeadAreTallied(cfg, st, 0, past.outcomes, Dead(st.inFlight, now));
  }

  lemma StepFollows(cfg: Config, s: System, a: Action)
    requires Sane(cfg) && WindowOk(cfg, s.st) && Follows(cfg, s.st, s.past.outcomes)
    ensures Follows(cfg, Step(cfg, s, a).st, Step(cfg, s, a).past.outcomes)
  {
    var past := Logged(s.past, a);
    match a
    case Ack(sig, at) => AckFollows(cfg, s.st, past, sig, at);
    case Error(at) => ErrorFollows(cfg, s.st, past, at);
    case Submit(_) =>
    case Turn(now, _) => ExpiryFollows(cfg, s.st, past, now);
  }

  // ---- What releases a slot, and when ---------------------------------------------------

  /** The slot waited for exactly this response. */
  predicate Answers(o: Outcome) {
    match o
    case Answered(slot, ConfirmationSeen(c), _) => slot.kind == Confirmation(c)
    case Answered(slot, ReportSeen(app, block, level), _) => slot.kind == Report(app, block, level)
    case _ => true
  }

  function AnsweredSlots(outcomes: seq<Outcome>): seq<Slot> {
    if outcomes == [] then []
    else if Last(outcomes).Answered? then AnsweredSlots(Earlier(outcomes)) + [Last(outcomes).slot]
    else AnsweredSlots(Earlier(outcomes))
  }

  function Latencies(outcomes: seq<Outcome>): seq<real> {
    if outcomes == [] then []
    else if Last(outcomes).Answered? then
      Latencies(Earlier(outcomes)) + [Last(outcomes).at - Last(outcomes).slot.sentAt]
    else Latencies(Earlier(outcomes))
  }

  ghost predicate RightlyAnswered(past: History) {
    && (forall o | o in past.outcomes :: Answers(o))
    && past.acked == AnsweredSlots(past.outcomes) && past.samples == Latencies(past.outcomes)
  }

  lemma OneTimedOut(outcomes: seq<Outcome>, f: Slot)
    ensures AnsweredSlots(outcomes + [TimedOut(f)]) == AnsweredSlots(outcomes)
    ensures Latencies(outcomes + [TimedOut(f)]) == Latencies(outcomes)
  {
    assert Earlier(outcomes + [TimedOut(f)]) == outcomes;
  }

  lemma {:induction false} NoneAnswered(outcomes: seq<Outcome>, dead: seq<Slot>)
    ensures AnsweredSlots(outcomes + TimedOuts(dead)) == AnsweredSlots(outcomes)
    ensures Latencies(outcomes + TimedOuts(dead)) == Latencies(outcomes)
    ensures forall o | o in TimedOuts(dead) :: Answers(o)
    decreases |dead|
  {
    if dead == [] {
      assert outcomes + [] == outcomes;
    } else {
      OneTimedOut(outcomes, dead[0]);
      NoneAnswered(outcomes + [TimedOut(dead[0])], dead[1..]);
      Regroup(outcomes, [TimedOut(dead[0])], TimedOuts(dead[1..]));
    }
  }

  lemma StepAnswersRightly(cfg: Config, s: System, a: Action)
    requires cfg.rtoMin <= cfg.rtoMax && RightlyAnswered(s.past)
    ensures RightlyAnswered(Step(cfg, s, a).past)
  {
    match a
    case Ack(sig, at) =>
      var found := FirstMatch(s.st.inFlight, sig);
      if found.Some? {
        var o := Answered(s.st.inFlight[found.value], sig, at);
        assert Earlier(s.past.outcomes + [o]) == s.past.outcomes;
      }
    case Error(_) => assert Earlier(s.past.outcomes + [Refused]) == s.past.outcomes;
    case Submit(_) =>
    case Turn(now, _) => NoneAnswered(s.past.outcomes, Dead(s.st.inFlight, now));
  }

  // ---- How long slots are held ----------------------------------------------------------

  /** The value within the limits that is nearest to the ideal one. */
  predicate Nearest(x: real, lo: real, hi: real, ideal: real) {
    lo <= x <= hi && (x == ideal || (x == lo && ideal < lo) || (x == hi && ideal > hi))
  }

  /** A silent frame is held for its fixed time, any other for the response timeout of the estimate at its write. */
  predicate HeldFor(cfg: Config, f: Slot, w: Attempt, samples: seq<real>) {
    w.answered <= |samples| &&
    if f.kind == Silent then f.deadline == f.sentAt + cfg.silentHold
    else
      Nearest(f.deadline - f.sentAt, cfg.rtoMin, cfg.rtoMax,
              Scaled(cfg.rtoFactor, Smoothed(cfg.ewmaAlpha, cfg.seedLatency, samples[..w.answered])))
  }

  ghost predicate HeldRightly(cfg: Config, taken: seq<Slot>, windowed: seq<Attempt>, samples: seq<real>) {
    |taken| == |windowed| && forall i | 0 <= i < |taken| :: HeldFor(cfg, taken[i], windowed[i], samples)
  }

  lemma MoreSamplesHoldAlike(cfg: Config, taken: seq<Slot>, windowed: seq<Attempt>, samples: seq<real>, x: real)
    requires HeldRightly(cfg, taken, windowed, samples)
    ensures HeldRightly(cfg, taken, windowed, samples + [x])
  {
    forall i | 0 <= i < |taken|
      ensures HeldFor(cfg, taken[i], windowed[i], samples + [x])
    {
      assert HeldFor(cfg, taken[i], windowed[i], samples);
      assert (samples + [x])[..windowed[i].answered] == samples[..windowed[i].answered];
    }
  }

  lemma WriteHoldsRightly(cfg: Config, s: System, lane: Lane, write: WriteResult)
    requires Sane(cfg) && s.lanes.Of(lane) != [] && Estimated(cfg, s.st, s.past)
    requires HeldRightly(cfg, s.past.taken, Windowed(s.past.writes), s.past.samples)
    ensures var past := DoWrite(cfg, s, lane, write).past;
            HeldRightly(cfg, past.taken, Windowed(past.writes), past.samples)
  {
    if write.Written? {
      assert Earlier(DoWrite(cfg, s, lane, write).past.writes) == s.past.writes;
      assert s.past.samples[..|s.past.samples|] == s.past.samples;
    }
  }

  ghost predicate Recorded(cfg: Config, s: System) {
    && Follows(cfg, s.st, s.past.outcomes) && RightlyAnswered(s.past)
    && HeldRightly(cfg, s.past.taken, Windowed(s.past.writes), s.past.samples)
  }

  lemma StepHoldsRightly(cfg: Config, s: System, a: Action)
    requires Sane(cfg) && Safe(cfg, s) && Timely(s, a)
    requires HeldRightly(cfg, s.past.taken, Windowed(s.past.writes), s.past.samples)
    ensures var past := Step(cfg, s, a).past; HeldRightly(cfg, past.taken, Windowed(past.writes), past.samples)
  {
    match a
    case Ack(sig, at) =>
      var found := FirstMatch(s.st.inFlight, sig);
      if found.Some? {
        MoreSamplesHoldAlike(cfg, s.past.taken, Windowed(s.past.writes), s.past.samples,
                             at - s.st.inFlight[found.value].sentAt);
      }
    case Error(_) =>
    case Submit(_) =>
    case Turn(now, write) =>
      var expired := DoExpire(cfg, s.(past := Logged(s.past, a)), now);
      match PlanOf(cfg, expired.st, s.lanes, now)
      case Write(lane) => WriteHoldsRightly(cfg, expired, lane, write);
      case Sleep(_) =>
  }

  lemma {:induction false} RunIsRecorded(cfg: Config, s: System, actions: seq<Action>)
    requires Sane(cfg) && Safe(cfg, s) && Recorded(cfg, s) && Feasible(cfg, s, actions)
    ensures Recorded(cfg, Run(cfg, s, actions))
    decreases |actions|
  {
    if actions != [] {
      StepIsSafe(cfg, s, actions[0]);
      StepFollows(cfg, s, actions[0]);
      StepAnswersRightly(cfg, s, actions[0]);
      StepHoldsRightly(cfg, s, actions[0]);
      RunIsRecorded(cfg, Step(cfg, s, actions[0]), actions[1..]);
    }
  }

  lemma ReachableIsRecorded(cfg: Config, s: System)
    requires Sane(cfg) && Reachable(cfg, s)
    ensures Recorded(cfg, s)
  {
    var clock, actions :| Feasible(cfg, Start(cfg, clock), actions) && s == Run(cfg, Start(cfg, clock), actions);
    StartIsSafe(cfg, clock);
    RunIsRecorded(cfg, Start(cfg, clock), actions);
  }

  // ---- What it means --------------------------------------------------------------------

  /** In every reachable state, window, clean run and timeout count are what the outcomes so far give one at a time,
      in whatever batches slots expired. */
  lemma WindowIsFold(cfg: Config, s: System)
    requires Sane(cfg) && Reachable(cfg, s)
    ensures Tally(s.st.window, s.st.cleanAcks, s.st.consecutiveTimeouts, s.st.collapsed)
         == Tallied(cfg, s.past.outcomes)
  {
    ReachableIsRecorded(cfg, s);
  }

  /** Over every run, each slot an ack released waited for exactly that response, so none of a silent frame was; and
      its sample is the time from its write to the response. */
  lemma AckedWereWaiting(cfg: Config, s: System)
    requires Sane(cfg) && Reachable(cfg, s)
    ensures s.past.acked == AnsweredSlots(s.past.outcomes) && s.past.samples == Latencies(s.past.outcomes)
    ensures forall slot, c, at | Answered(slot, ConfirmationSeen(c), at) in s.past.outcomes ::
              slot.kind == Confirmation(c)
    ensures forall slot, app, block, level, at | Answered(slot, ReportSeen(app, block, level), at) in s.past.outcomes ::
              slot.kind == Report(app, block, level)
    ensures forall slot | slot in s.past.acked :: slot.kind != Silent
  {
    ReachableIsRecorded(cfg, s);
    NoneIsSilent(s.past.outcomes);
  }

  lemma {:induction false} NoneIsSilent(outcomes: seq<Outcome>)
    requires forall o | o in outcomes :: Answers(o)
    ensures forall slot | slot in AnsweredSlots(outcomes) :: slot.kind != Silent
  {
    if outcomes != [] {
      NoneIsSilent(Earlier(outcomes));
      assert Last(outcomes) in outcomes;
    }
  }

  lemma TakenIsHeld(cfg: Config, s: System, i: nat)
    requires Sane(cfg) && Reachable(cfg, s) && i < |s.past.taken|
    ensures i < |Windowed(s.past.writes)| && s.past.taken[i].kind == Windowed(s.past.writes)[i].job.kind
    ensures HeldFor(cfg, s.past.taken[i], Windowed(s.past.writes)[i], s.past.samples)
  {
    ReachableIsRecorded(cfg, s);
    ReachableIsSafe(cfg, s);
    assert TookFor(cfg, s.past.taken[i], Windowed(s.past.writes)[i]);
  }

  lemma Spelled(x: real, lo: real, hi: real, factor: real, estimate: real)
    requires Nearest(x, lo, hi, Scaled(factor, estimate))
    ensures Nearest(x, lo, hi, factor * estimate)
  {}

  /** Over every run, the slot of the i-th windowed write is held for the response timeout that the latencies answered
      by then give, and a silent one for its fixed time. */
  lemma SlotsAreHeldForTheTimeout(cfg: Config, s: System, i: nat)
    requires Sane(cfg) && Reachable(cfg, s) && i < |s.past.taken|
    ensures i < |Windowed(s.past.writes)| && Windowed(s.past.writes)[i].answered <= |s.past.samples|
    ensures var f, w := s.past.taken[i], Windowed(s.past.writes)[i];
            f.kind == w.job.kind &&
            if f.kind == Silent then f.deadline == f.sentAt + cfg.silentHold
            else
              Nearest(f.deadline - f.sentAt, cfg.rtoMin, cfg.rtoMax,
                      cfg.rtoFactor * Smoothed(cfg.ewmaAlpha, cfg.seedLatency, s.past.samples[..w.answered]))
  {
    TakenIsHeld(cfg, s, i);
    var f, w := s.past.taken[i], Windowed(s.past.writes)[i];
    if f.kind != Silent {
      Spelled(f.deadline - f.sentAt, cfg.rtoMin, cfg.rtoMax, cfg.rtoFactor,
              Smoothed(cfg.ewmaAlpha, cfg.seedLatency, s.past.samples[..w.answered]));
    }
  }

  /** The attempts whose write succeeded. */
  function Succeeded(attempts: seq<Attempt>): seq<Attempt> {
    if attempts == [] then []
    else Succeeded(Earlier(attempts)) + if Last(attempts).result.Written? then [Last(attempts)] else []
  }

  function ErrorTimes(log: seq<Action>): seq<Instant> {
    if log == [] then [] else ErrorTimes(Earlier(log)) + if Last(log).Error? then [Last(log).at] else []
  }

  function TimesOf(errors: seq<(Instant, nat)>): seq<Instant> {
    if errors == [] then [] else TimesOf(Earlier(errors)) + [Last(errors).0]
  }

  /** The history tells of every `!` and every write there was, and of no other. */
  ghost predicate Faithful(past: History) {
    && past.writes == Succeeded(past.attempts) && TimesOf(past.errors) == ErrorTimes(past.log)
    && forall w | w in past.attempts :: Turn(w.start, w.result) in past.log
  }

  lemma AttemptIsFaithful(past: History, more: History, w: Attempt, a: Action)
    requires Faithful(past) && a == Turn(w.start, w.result) && more.log == past.log + [a]
    requires more.attempts == past.attempts + [w] && more.errors == past.errors
    requires more.writes == past.writes + if w.result.Written? then [w] else []
    ensures Faithful(more)
  {
    assert Earlier(more.attempts) == past.attempts && Earlier(more.log) == past.log;
    assert Last(more.log) == a && a in more.log;
  }

  lemma NoAttemptIsFaithful(past: History, more: History, a: Action)
    requires Faithful(past) && more.log == past.log + [a]
    requires more.attempts == past.attempts && more.writes == past.writes
    requires if a.Error? then |more.errors| == |past.errors| + 1 && Earlier(more.errors) == past.errors &&
                              Last(more.errors).0 == a.at
             else more.errors == past.errors
    ensures Faithful(more)
  {
    assert Earlier(more.log) == past.log && Last(more.log) == a;
  }

  lemma StepIsFaithful(cfg: Config, s: System, a: Action)
    requires cfg.rtoMin <= cfg.rtoMax && Faithful(s.past)
    ensures Faithful(Step(cfg, s, a).past)
  {
    var more := Step(cfg, s, a).past;
    match a
    case Ack(_, _) => NoAttemptIsFaithful(s.past, more, a);
    case Error(at) =>
      assert Earlier(more.errors) == s.past.errors;
      NoAttemptIsFaithful(s.past, more, a);
    case Submit(_) => NoAttemptIsFaithful(s.past, more, a);
    case Turn(now, write) =>
      var expired := DoExpire(cfg, s.(past := Logged(s.past, a)), now);
      match PlanOf(cfg, expired.st, s.lanes, now)
      case Write(lane) =>
        AttemptIsFaithful(s.past, more, Last(more.attempts), a);
      case Sleep(_) => NoAttemptIsFaithful(s.past, more, a);
  }

  lemma {:induction false} RunIsFaithful(cfg: Config, s: System, actions: seq<Action>)
    requires cfg.rtoMin <= cfg.rtoMax && Faithful(s.past)
    ensures Faithful(Run(cfg, s, actions).past)
    decreases |actions|
  {
    if actions != [] {
      StepIsFaithful(cfg, s, actions[0]);
      RunIsFaithful(cfg, Step(cfg, s, actions[0]), actions[1..]);
    }
  }

  /** The history leaves out nothing: its writes are all attempts that succeeded, its errors every `!` of the log, and
      every attempt began at the time of a turn and ended as that turn says. */
  lemma HistoryIsFaithful(cfg: Config, s: System)
    requires cfg.rtoMin <= cfg.rtoMax && Reachable(cfg, s)
    ensures s.past.writes == Succeeded(s.past.attempts) && TimesOf(s.past.errors) == ErrorTimes(s.past.log)
    ensures forall w | w in s.past.attempts :: Turn(w.start, w.result) in s.past.log
  {
    var clock, actions :| Feasible(cfg, Start(cfg, clock), actions) && s == Run(cfg, Start(cfg, clock), actions);
    RunIsFaithful(cfg, Start(cfg, clock), actions);
  }

  /** The mark of a collapse is exact where it can be told: set just when the window is at its minimum. */
  lemma CollapsedIffAtMinimum(cfg: Config, s: System)
    requires Sane(cfg) && Reachable(cfg, s) && cfg.windowInitial > cfg.windowMin
    ensures s.st.collapsed <==> s.st.window == cfg.windowMin
  {
    ReachableIsRecorded(cfg, s);
    TalliedCollapse(cfg, s.past.outcomes);
  }

  lemma {:induction false} TalliedCollapse(cfg: Config, outcomes: seq<Outcome>)
    requires Sane(cfg) && cfg.windowInitial > cfg.windowMin
    ensures var t := Tallied(cfg, outcomes);
            t.window >= cfg.windowMin && (t.collapsed <==> t.window == cfg.windowMin)
  {
    if outcomes != [] {
      TalliedCollapse(cfg, Earlier(outcomes));
    }
  }

  // ---- Order ----------------------------------------------------------------------------

  function JobsOf(attempts: seq<Attempt>): seq<Job> {
    if attempts == [] then [] else JobsOf(Earlier(attempts)) + [Last(attempts).job]
  }

  lemma {:induction false} PoppedAreJobs(attempts: seq<Attempt>, lane: Lane, job: Job)
    requires job in Popped(attempts, lane)
    ensures job in JobsOf(attempts)
  {
    if Last(attempts).lane != lane || job in Popped(Earlier(attempts), lane) {
      PoppedAreJobs(Earlier(attempts), lane, job);
    }
  }

  lemma {:induction false} IsOnItsLane(jobs: seq<Job>, job: Job)
    requires job in jobs
    ensures job in OnLane(jobs, LaneOf(job))
  {
    if Last(jobs) != job {
      IsOnItsLane(Earlier(jobs), job);
    }
  }

  /** When a frame was taken, any job submitted by then that is a retransmit, if the frame was none, or a command, if
      the frame was background traffic, had been taken already. */
  lemma UrgentGoesFirst(cfg: Config, s: System, i: nat, k: nat)
    requires Sane(cfg) && Reachable(cfg, s) && i < |s.past.attempts|
    requires k < s.past.attempts[i].seen
    ensures s.past.attempts[i].seen <= |s.past.submitted|
    ensures var job, taken := s.past.submitted[k], s.past.attempts[i].job;
            (if taken.windowed then
               !job.windowed || (job.priority == CommandPriority && taken.priority == BackgroundPriority)
             else false)
            ==> job in JobsOf(s.past.attempts[..i])
  {
    ReachableIsSafe(cfg, s);
    var a := s.past.attempts[i];
    assert RankedAt(s.past.submitted, s.past.attempts[..i], a);
    assert a in s.past.attempts && LaneOf(a.job) == a.lane;
    var job := s.past.submitted[k];
    if Outranks(LaneOf(job), a.lane) {
      assert job in s.past.submitted[..a.seen];
      IsOnItsLane(s.past.submitted[..a.seen], job);
      PoppedAreJobs(s.past.attempts[..i], LaneOf(job), job);
    }
  }
}
