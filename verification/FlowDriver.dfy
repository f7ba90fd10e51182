/** The controller's task: three lanes in front of the core, and one loop that drains, expires, writes or sleeps.

    A run is a sequence of actions with their times. The history of a run is kept beside the state, for
    stating what holds of all runs; the task itself does not look at it. */
module FlowDriver {
  import opened Bytes
  import opened FlowControl
  import opened Wrappers

  datatype Priority = CommandPriority | BackgroundPriority

  datatype Job = Job(data: seq<Byte>, priority: Priority, kind: ResponseKind, windowed: bool)

  datatype Lane = Retransmits | Commands | Background

  function LaneOf(job: Job): Lane {
    if !job.windowed then Retransmits
    else if job.priority == CommandPriority then Commands
    else Background
  }

  datatype Lanes = Lanes(retransmits: seq<Job>, commands: seq<Job>, background: seq<Job>) {
    function Of(lane: Lane): seq<Job> {
      match lane
      case Retransmits => retransmits
      case Commands => commands
      case Background => background
    }

    function With(lane: Lane, jobs: seq<Job>): Lanes {
      match lane
      case Retransmits => this.(retransmits := jobs)
      case Commands => this.(commands := jobs)
      case Background => this.(background := jobs)
    }

    /** The lane served next: retransmits, then commands, then background. */
    function Front(): (r: Option<Lane>)
      ensures r.None? <==> Idle()
      ensures r.Some? ==> Of(r.value) != []
      ensures r == Some(Commands) ==> retransmits == []
      ensures r == Some(Background) ==> retransmits == [] && commands == []
    {
      if retransmits != [] then Some(Retransmits)
      else if commands != [] then Some(Commands)
      else if background != [] then Some(Background)
      else None
    }

    predicate Idle() {
      retransmits == [] && commands == [] && background == []
    }
  }

  /** How the transport takes a write: done at `sent`, or failed. */
  datatype WriteResult = Written(sent: Instant) | Failed

  /** A response or a `!` is processed, a job arrives, or the loop decides what to transmit. */
  datatype Action =
    | Ack(sig: AckSignal, at: Instant)
    | Error(at: Instant)
    | Submit(job: Job)
    | Turn(now: Instant, write: WriteResult)

  /** What became of a slot, or a `!`. */
  datatype Outcome =
    | Answered(slot: Slot, sig: AckSignal, at: Instant)
    | TimedOut(slot: Slot)
    | Refused

  /** One frame taken off its lane: when its write began, how it ended, the slots and window then, and how many
      jobs had been submitted and how many slots answered by then. */
  datatype Attempt = Attempt(job: Job, lane: Lane, start: Instant, result: WriteResult, held: nat, window: nat,
                             seen: nat, answered: nat)

  /** What happened so far. `log` are all actions; `writes` are the attempts that succeeded, `taken` the slots they
      took, `samples` the latencies of the slots in `acked`, `outcomes` what became of slots in order, and `errors` the
      `!` seen, each with the number of attempts before it. */
  datatype History = History(clock: Instant, log: seq<Action>, submitted: seq<Job>, attempts: seq<Attempt>,
                             writes: seq<Attempt>, taken: seq<Slot>, acked: seq<Slot>, samples: seq<real>,
                             expired: seq<Slot>, outcomes: seq<Outcome>, errors: seq<(Instant, nat)>)

  function NoHistory(clock: Instant): History {
    History(clock, [], [], [], [], [], [], [], [], [], [])
  }

  datatype System = System(st: State, lanes: Lanes, past: History)

  function Start(cfg: Config, clock: Instant): System {
    System(Initial(cfg), Lanes([], [], []), NoHistory(clock))
  }

  /** What a turn does once expired slots are released. */
  datatype Plan = Write(lane: Lane) | Sleep(until: Instant)

  const IDLE_WAKE := 3600.0

  function PlanOf(cfg: Config, st: State, lanes: Lanes, now: Instant): Plan {
    var deadline := NextDeadline(st.inFlight);
    var unlessSooner := (t: Instant) => if deadline.Some? then Min(deadline.value, t) else t;
    match lanes.Front()
    case None => Sleep(if deadline.Some? then deadline.value else now + IDLE_WAKE)
    case Some(lane) =>
      match GateOf(cfg, st, lane != Retransmits, now)
      case Ready => Write(lane)
      case Until(t) => Sleep(unlessSooner(t))
      case Window => Sleep(if deadline.Some? then deadline.value else now + IDLE_WAKE)
  }

  function Logged(past: History, a: Action): History {
    past.(log := past.log + [a])
  }

  function TimedOuts(dead: seq<Slot>): seq<Outcome> {
    if dead == [] then [] else [TimedOut(dead[0])] + TimedOuts(dead[1..])
  }

  function DoAck(cfg: Config, s: System, sig: AckSignal, at: Instant): System {
    s.(st := AfterAck(cfg, s.st, sig, at), past := Acked(Logged(s.past, Ack(sig, at)), s.st.inFlight, sig, at))
  }

  function Acked(past: History, slots: seq<Slot>, sig: AckSignal, at: Instant): History {
    match FirstMatch(slots, sig)
    case None => past.(clock := at)
    case Some(i) =>
      past.(clock := at, acked := past.acked + [slots[i]], samples := past.samples + [at - slots[i].sentAt],
            outcomes := past.outcomes + [Answered(slots[i], sig, at)])
  }

  function DoError(cfg: Config, s: System, at: Instant): System {
    s.(st := AfterPciError(cfg, s.st, at), past := Refusal(Logged(s.past, Error(at)), at))
  }

  function Refusal(past: History, at: Instant): History {
    past.(clock := at, errors := past.errors + [(at, |past.attempts|)], outcomes := past.outcomes + [Refused])
  }

  function DoSubmit(s: System, job: Job): System {
    s.(lanes := s.lanes.With(LaneOf(job), s.lanes.Of(LaneOf(job)) + [job]),
       past := Logged(s.past, Submit(job)).(submitted := s.past.submitted + [job]))
  }

  function DoExpire(cfg: Config, s: System, now: Instant): System {
    s.(st := AfterExpiry(cfg, s.st, now), past := Buried(s.past, Dead(s.st.inFlight, now), now))
  }

  function Buried(past: History, dead: seq<Slot>, now: Instant): History {
    past.(clock := now, expired := past.expired + dead, outcomes := past.outcomes + TimedOuts(dead))
  }

  /** The front job of the lane leaves it, and the write ends as it does. */
  function DoWrite(cfg: Config, s: System, lane: Lane, write: WriteResult): System
    requires cfg.rtoMin <= cfg.rtoMax && s.lanes.Of(lane) != []
  {
    var job := s.lanes.Of(lane)[0];
    var attempt := Attempt(job, lane, s.past.clock, write, |s.st.inFlight|, s.st.window, |s.past.submitted|,
                           |s.past.samples|);
    var lanes := s.lanes.With(lane, s.lanes.Of(lane)[1..]);
    match write
    case Failed => System(s.st, lanes, s.past.(attempts := s.past.attempts + [attempt]))
    case Written(sent) =>
      var past := s.past.(clock := sent, attempts := s.past.attempts + [attempt], writes := s.past.writes + [attempt]);
      if job.windowed then
        var st := AfterSend(cfg, s.st, job.kind, sent);
        System(st, lanes, past.(taken := past.taken + [st.inFlight[|s.st.inFlight|]]))
      else System(AfterRawSend(s.st, sent), lanes, past)
  }

  function DoTurn(cfg: Config, s: System, now: Instant, write: WriteResult): System
    requires cfg.rtoMin <= cfg.rtoMax
  {
    var expired := DoExpire(cfg, s.(past := Logged(s.past, Turn(now, write))), now);
    match PlanOf(cfg, expired.st, s.lanes, now)
    case Write(lane) => DoWrite(cfg, expired, lane, write)
    case Sleep(_) => expired
  }

  function Step(cfg: Config, s: System, a: Action): System
    requires cfg.rtoMin <= cfg.rtoMax
  {
    match a
    case Ack(sig, at) => DoAck(cfg, s, sig, at)
    case Error(at) => DoError(cfg, s, at)
    case Submit(job) => DoSubmit(s, job)
    case Turn(now, write) => DoTurn(cfg, s, now, write)
  }

  /** The clock never runs backwards; a write takes time, if any. */
  predicate Timely(s: System, a: Action) {
    match a
    case Ack(_, at) => s.past.clock <= at
    case Error(at) => s.past.clock <= at
    case Submit(_) => true
    case Turn(now, Written(sent)) => s.past.clock <= now <= sent
    case Turn(now, Failed) => s.past.clock <= now
  }

  function Run(cfg: Config, s: System, actions: seq<Action>): System
    requires cfg.rtoMin <= cfg.rtoMax
    decreases |actions|
  {
    if actions == [] then s else Run(cfg, Step(cfg, s, actions[0]), actions[1..])
  }

  predicate Feasible(cfg: Config, s: System, actions: seq<Action>)
    requires cfg.rtoMin <= cfg.rtoMax
    decreases |actions|
  {
    actions == [] || (Timely(s, actions[0]) && Feasible(cfg, Step(cfg, s, actions[0]), actions[1..]))
  }

  lemma {:induction false} RunConcat(cfg: Config, s: System, a: seq<Action>, b: seq<Action>)
    requires cfg.rtoMin <= cfg.rtoMax
    ensures Run(cfg, s, a + b) == Run(cfg, Run(cfg, s, a), b)
    decreases |a|
  {
    if a == [] {
      assert a + b == b;
    } else {
      var next := Step(cfg, s, a[0]);
      assert (a + b)[0] == a[0] && (a + b)[1..] == a[1..] + b;
      assert Run(cfg, s, a + b) == Run(cfg, next, a[1..] + b);
      RunConcat(cfg, next, a[1..], b);
    }
  }

  // ---- The loop -------------------------------------------------------------------------

  /** What the loop receives in one round: the feedback and jobs it finds waiting, the time, how a write would
      end, and, should it sleep instead, what wakes it. */
  datatype Round = Round(feedback: seq<Action>, jobs: seq<Job>, now: Instant, write: WriteResult, wake: Wake)

  datatype Wake = Timer | Received(action: Action) | Closed

  predicate WellTyped(round: Round) {
    && (forall a | a in round.feedback :: a.Ack? || a.Error?)
    && (round.wake.Received? ==> !round.wake.action.Turn?)
  }

  predicate AllWellTyped(rounds: seq<Round>) {
    forall round | round in rounds :: WellTyped(round)
  }

  function Submits(jobs: seq<Job>): seq<Action> {
    if jobs == [] then [] else [Submit(jobs[0])] + Submits(jobs[1..])
  }

  /** What the turn at `now` would do. */
  function PlanAt(cfg: Config, s: System, now: Instant): Plan {
    PlanOf(cfg, AfterExpiry(cfg, s.st, now), s.lanes, now)
  }

  predicate Sleeps(cfg: Config, s: System, now: Instant) {
    PlanAt(cfg, s, now).Sleep?
  }

  /** What ended the sleep, if the round slept and something received did. */
  function WakeActions(round: Round, plan: Plan): seq<Action> {
    if plan.Sleep? && round.wake.Received? then [round.wake.action] else []
  }

  /** The actions of one round: feedback first, then jobs, then the turn, then what ended its sleep. */
  function RoundActions(round: Round, plan: Plan): seq<Action> {
    round.feedback + Submits(round.jobs) + [Turn(round.now, round.write)] + WakeActions(round, plan)
  }

  function Handled(rounds: seq<Round>, plans: seq<Plan>): seq<Action>
    requires |rounds| == |plans|
  {
    if rounds == [] then []
    else
      var last := |rounds| - 1;
      Handled(rounds[..last], plans[..last]) + RoundActions(rounds[last], plans[last])
  }

  /** The job that ended the sleep, if the round slept and one did. */
  function JobOnWaking(round: Round, plan: Plan): seq<Job> {
    match (plan, round.wake)
    case (Sleep(_), Received(Submit(job))) => [job]
    case _ => []
  }

  /** All jobs the loop received, in order. */
  function JobsReceived(rounds: seq<Round>, plans: seq<Plan>): seq<Job>
    requires |rounds| == |plans|
  {
    if rounds == [] then []
    else
      var last := |rounds| - 1;
      JobsReceived(rounds[..last], plans[..last]) + rounds[last].jobs + JobOnWaking(rounds[last], plans[last])
  }

  /** The response or `!` that ended the sleep, if the round slept and one did. */
  function FeedbackOnWaking(round: Round, plan: Plan): seq<Action> {
    match (plan, round.wake)
    case (Sleep(_), Received(Ack(sig, at))) => [Ack(sig, at)]
    case (Sleep(_), Received(Error(at))) => [Error(at)]
    case _ => []
  }

  /** All responses and `!` it received, in order. */
  function FeedbackReceived(rounds: seq<Round>, plans: seq<Plan>): seq<Action>
    requires |rounds| == |plans|
  {
    if rounds == [] then []
    else
      var last := |rounds| - 1;
      FeedbackReceived(rounds[..last], plans[..last]) + rounds[last].feedback
      + FeedbackOnWaking(rounds[last], plans[last])
  }

  function JobsIn(actions: seq<Action>): seq<Job> {
    if actions == [] then []
    else if actions[0].Submit? then [actions[0].job] + JobsIn(actions[1..])
    else JobsIn(actions[1..])
  }

  function FeedbackIn(actions: seq<Action>): seq<Action> {
    if actions == [] then []
    else if actions[0].Ack? || actions[0].Error? then [actions[0]] + FeedbackIn(actions[1..])
    else FeedbackIn(actions[1..])
  }

  lemma {:induction false} JobsConcat(a: seq<Action>, b: seq<Action>)
    ensures JobsIn(a + b) == JobsIn(a) + JobsIn(b)
  {
    if a == [] {
      assert a + b == b;
    } else {
      JobsConcat(a[1..], b);
      assert (a + b)[0] == a[0] && (a + b)[1..] == a[1..] + b;
    }
  }

  lemma {:induction false} FeedbackConcat(a: seq<Action>, b: seq<Action>)
    ensures FeedbackIn(a + b) == FeedbackIn(a) + FeedbackIn(b)
  {
    if a == [] {
      assert a + b == b;
    } else {
      FeedbackConcat(a[1..], b);
      assert (a + b)[0] == a[0] && (a + b)[1..] == a[1..] + b;
    }
  }

  lemma InOne(a: Action)
    ensures JobsIn([a]) == if a.Submit? then [a.job] else []
    ensures FeedbackIn([a]) == if a.Ack? || a.Error? then [a] else []
  {
    assert [a][1..] == [];
  }

  lemma {:induction false} InFeedback(feedback: seq<Action>)
    requires forall a | a in feedback :: a.Ack? || a.Error?
    ensures JobsIn(feedback) == [] && FeedbackIn(feedback) == feedback
  {
    if feedback != [] {
      assert feedback[0] in feedback;
      InFeedback(feedback[1..]);
    }
  }

  lemma {:induction false} InSubmits(jobs: seq<Job>)
    ensures JobsIn(Submits(jobs)) == jobs && FeedbackIn(Submits(jobs)) == []
  {
    if jobs != [] {
      InSubmits(jobs[1..]);
      assert Submits(jobs)[1..] == Submits(jobs[1..]);
    }
  }

  lemma InWake(round: Round, plan: Plan)
    requires WellTyped(round)
    ensures JobsIn(WakeActions(round, plan)) == JobOnWaking(round, plan)
    ensures FeedbackIn(WakeActions(round, plan)) == FeedbackOnWaking(round, plan)
  {
    if WakeActions(round, plan) != [] {
      InOne(round.wake.action);
    }
  }

  lemma InFour(a: seq<Action>, b: seq<Action>, c: seq<Action>, d: seq<Action>)
    ensures JobsIn(a + b + c + d) == JobsIn(a) + JobsIn(b) + JobsIn(c) + JobsIn(d)
    ensures FeedbackIn(a + b + c + d) == FeedbackIn(a) + FeedbackIn(b) + FeedbackIn(c) + FeedbackIn(d)
  {
    JobsConcat(a, b);
    JobsConcat(a + b, c);
    JobsConcat(a + b + c, d);
    FeedbackConcat(a, b);
    FeedbackConcat(a + b, c);
    FeedbackConcat(a + b + c, d);
  }

  lemma NothingAround<T>(a: seq<T>, b: seq<T>)
    ensures [] + a + [] + b == a + b && a + [] + [] + b == a + b
  {}

  lemma InRound(round: Round, plan: Plan)
    requires WellTyped(round)
    ensures JobsIn(RoundActions(round, plan)) == round.jobs + JobOnWaking(round, plan)
    ensures FeedbackIn(RoundActions(round, plan)) == round.feedback + FeedbackOnWaking(round, plan)
  {
    InFeedback(round.feedback);
    InSubmits(round.jobs);
    InOne(Turn(round.now, round.write));
    InWake(round, plan);
    InFour(round.feedback, Submits(round.jobs), [Turn(round.now, round.write)], WakeActions(round, plan));
    NothingAround(round.jobs, JobOnWaking(round, plan));
    NothingAround(round.feedback, FeedbackOnWaking(round, plan));
  }

  /** What is handled is what was received: every job, and every response and `!`, once and in order. */
  lemma {:induction false} AllIsHandled(rounds: seq<Round>, plans: seq<Plan>)
    requires |rounds| == |plans| && AllWellTyped(rounds)
    ensures JobsIn(Handled(rounds, plans)) == JobsReceived(rounds, plans)
    ensures FeedbackIn(Handled(rounds, plans)) == FeedbackReceived(rounds, plans)
  {
    if rounds != [] {
      var last := |rounds| - 1;
      AllIsHandled(rounds[..last], plans[..last]);
      InRound(rounds[last], plans[last]);
      JobsConcat(Handled(rounds[..last], plans[..last]), RoundActions(rounds[last], plans[last]));
      FeedbackConcat(Handled(rounds[..last], plans[..last]), RoundActions(rounds[last], plans[last]));
      Regroup(JobsReceived(rounds[..last], plans[..last]), rounds[last].jobs, JobOnWaking(rounds[last], plans[last]));
      Regroup(FeedbackReceived(rounds[..last], plans[..last]), rounds[last].feedback,
              FeedbackOnWaking(rounds[last], plans[last]));
    }
  }

  /** Within a round its feedback is handled first, then its jobs in order, then its turn, and last what ended its
      sleep; and all that after the rounds before it. */
  lemma RoundIsInOrder(rounds: seq<Round>, plans: seq<Plan>, k: nat)
    requires |rounds| == |plans| && k < |rounds|
    ensures exists jobs, wake ::
              && |jobs| == |rounds[k].jobs| && (forall j | 0 <= j < |jobs| :: jobs[j] == Submit(rounds[k].jobs[j]))
              && wake == (match (plans[k], rounds[k].wake) case (Sleep(_), Received(a)) => [a] case _ => [])
              && Handled(rounds[..k + 1], plans[..k + 1])
                 == Handled(rounds[..k], plans[..k]) + (rounds[k].feedback + jobs
                                                        + [Turn(rounds[k].now, rounds[k].write)] + wake)
  {
    var wake := match (plans[k], rounds[k].wake) case (Sleep(_), Received(a)) => [a] case _ => [];
    SubmitsAt(rounds[k].jobs);
    assert rounds[..k + 1][..k] == rounds[..k] && plans[..k + 1][..k] == plans[..k];
    assert Handled(rounds[..k + 1], plans[..k + 1])
        == Handled(rounds[..k], plans[..k]) + (rounds[k].feedback + Submits(rounds[k].jobs)
                                               + [Turn(rounds[k].now, rounds[k].write)] + wake);
  }

  lemma {:induction false} SubmitsAt(jobs: seq<Job>)
    ensures |Submits(jobs)| == |jobs| && forall j | 0 <= j < |jobs| :: Submits(jobs)[j] == Submit(jobs[j])
  {
    if jobs != [] {
      SubmitsAt(jobs[1..]);
    }
  }

  /** The round ends the loop: it slept, and its handle was dropped meanwhile. */
  predicate EndsWith(round: Round, plan: Plan) {
    plan.Sleep? && round.wake.Closed?
  }

  /** The plan of a round is the one of the state its feedback and jobs have led to. */
  predicate Planned(cfg: Config, s: System, round: Round, plan: Plan)
    requires cfg.rtoMin <= cfg.rtoMax
  {
    plan == PlanAt(cfg, Run(cfg, s, round.feedback + Submits(round.jobs)), round.now)
  }

  /** Each round but the last left the loop going, and followed its own plan. */
  ghost predicate Followed(cfg: Config, s: System, rounds: seq<Round>, plans: seq<Plan>)
    requires cfg.rtoMin <= cfg.rtoMax && |rounds| == |plans|
  {
    rounds == [] ||
    (var last := |rounds| - 1;
     && Followed(cfg, s, rounds[..last], plans[..last])
     && GoesOn(rounds[..last], plans[..last])
     && Planned(cfg, Run(cfg, s, Handled(rounds[..last], plans[..last])), rounds[last], plans[last]))
  }

  predicate GoesOn(rounds: seq<Round>, plans: seq<Plan>)
    requires |rounds| == |plans|
  {
    rounds == [] || !EndsWith(rounds[|rounds| - 1], plans[|plans| - 1])
  }

  /** The first rounds of a script, as many as there are plans, lead from one state to the other. */
  ghost predicate TakenTo(cfg: Config, before: System, after: System, script: seq<Round>, plans: seq<Plan>)
    requires cfg.rtoMin <= cfg.rtoMax
  {
    && |plans| <= |script| && Followed(cfg, before, script[..|plans|], plans)
    && after == Run(cfg, before, Handled(script[..|plans|], plans))
  }

  lemma {:induction false} RunLogs(cfg: Config, s: System, actions: seq<Action>)
    requires cfg.rtoMin <= cfg.rtoMax
    ensures Run(cfg, s, actions).past.log == s.past.log + actions
    ensures Run(cfg, s, actions).past.submitted == s.past.submitted + JobsIn(actions)
    decreases |actions|
  {
    if actions != [] {
      var next, job := Step(cfg, s, actions[0]), if actions[0].Submit? then [actions[0].job] else [];
      StepLogs(cfg, s, actions[0]);
      RunLogs(cfg, next, actions[1..]);
      assert actions == [actions[0]] + actions[1..] && s.past.submitted + [] == s.past.submitted;
      Regroup(s.past.log, [actions[0]], actions[1..]);
      Regroup(s.past.submitted, job, JobsIn(actions[1..]));
    } else {
      assert s.past.log + [] == s.past.log && s.past.submitted + [] == s.past.submitted;
    }
  }

  lemma StepLogs(cfg: Config, s: System, a: Action)
    requires cfg.rtoMin <= cfg.rtoMax
    ensures Step(cfg, s, a).past.log == s.past.log + [a]
    ensures Step(cfg, s, a).past.submitted == if a.Submit? then s.past.submitted + [a.job] else s.past.submitted
  {}

  class Driver {
    const state: FlowState
    var retransmits: seq<Job>
    var commands: seq<Job>
    var background: seq<Job>
    ghost var past: History

    ghost function Value(): System
      reads this, state
    {
      System(state.Value(), Lanes(retransmits, commands, background), past)
    }

    constructor (cfg: Config, ghost clock: Instant)
      ensures fresh(state) && state.cfg == cfg && Value() == Start(cfg, clock)
    {
      state := new FlowState(cfg);
      retransmits, commands, background := [], [], [];
      past := NoHistory(clock);
    }

    method Enqueue(job: Job)
      modifies this
      ensures Value() == DoSubmit(old(Value()), job)
    {
      past := Logged(past, Submit(job)).(submitted := past.submitted + [job]);
      if !job.windowed {
        retransmits := retransmits + [job];
      } else if job.priority == CommandPriority {
        commands := commands + [job];
      } else {
        background := background + [job];
      }
    }

    /** A response or a `!` from the channel. */
    method OnFeedback(a: Action)
      requires a.Ack? || a.Error?
      modifies this`past, state
      ensures Value() == match a case Ack(sig, at) => DoAck(state.cfg, old(Value()), sig, at)
                                 case Error(at) => DoError(state.cfg, old(Value()), at)
                                 case _ => old(Value())
    {
      match a {
        case Ack(sig, at) =>
          past := Acked(Logged(past, a), state.inFlight, sig, at);
          var _ := state.OnAck(sig, at);
        case Error(at) =>
          past := Refusal(Logged(past, a), at);
          state.OnPciError(at);
      }
    }

    /** Expires slots, then writes the front frame if the gate is open, or returns how long to sleep. */
    method TakeTurn(now: Instant, write: WriteResult) returns (plan: Plan)
      requires state.cfg.rtoMin <= state.cfg.rtoMax
      modifies this, state
      ensures Value() == DoTurn(state.cfg, old(Value()), now, write)
      ensures plan == PlanAt(state.cfg, old(Value()), now)
    {
      past := Buried(Logged(past, Turn(now, write)), Dead(state.inFlight, now), now);
      state.Expire(now);
      var wake := state.EarliestDeadline();
      var lane := Lanes(retransmits, commands, background).Front();
      if lane.Some? {
        var gate := state.GateNow(lane.value != Retransmits, now);
        match gate {
          case Ready =>
            Transmit(lane.value, write);
            return Write(lane.value);
          case Until(t) =>
            wake := Some(if wake.Some? then Min(wake.value, t) else t);
          case Window =>
        }
      }
      plan := Sleep(if wake.Some? then wake.value else now + IDLE_WAKE);
    }

    /** Pops the lane's front frame and accounts for its write. */
    method Transmit(lane: Lane, write: WriteResult)
      requires state.cfg.rtoMin <= state.cfg.rtoMax
      requires Lanes(retransmits, commands, background).Of(lane) != []
      modifies this, state
      ensures Value() == DoWrite(state.cfg, old(Value()), lane, write)
    {
      var job := Pop(lane);
      ghost var attempt := Attempt(job, lane, past.clock, write, |state.inFlight|, state.window, |past.submitted|,
                                   |past.samples|);
      past := past.(attempts := past.attempts + [attempt]);
      if write.Written? {
        past := past.(clock := write.sent, writes := past.writes + [attempt]);
        if job.windowed {
          state.RecordSend(job.kind, write.sent);
          past := past.(taken := past.taken + [state.inFlight[|state.inFlight| - 1]]);
        } else {
          state.RecordRawSend(write.sent);
        }
      }
    }

    method Pop(lane: Lane) returns (job: Job)
      requires Lanes(retransmits, commands, background).Of(lane) != []
      modifies this`retransmits, this`commands, this`background
      ensures job == old(Value()).lanes.Of(lane)[0]
      ensures Value().lanes == old(Value()).lanes.With(lane, old(Value()).lanes.Of(lane)[1..])
    {
      match lane {
        case Retransmits =>
          job, retransmits := retransmits[0], retransmits[1..];
        case Commands =>
          job, commands := commands[0], commands[1..];
        case Background =>
          job, background := background[0], background[1..];
      }
    }

    method DrainFeedback(feedback: seq<Action>)
      requires state.cfg.rtoMin <= state.cfg.rtoMax
      requires forall a | a in feedback :: a.Ack? || a.Error?
      modifies this`past, state
      ensures Value() == Run(state.cfg, old(Value()), feedback)
    {
      for i := 0 to |feedback|
        invariant Run(state.cfg, old(Value()), feedback) == Run(state.cfg, Value(), feedback[i..])
        invariant retransmits == old(retransmits) && commands == old(commands) && background == old(background)
      {
        assert feedback[i..][0] == feedback[i] && feedback[i..][1..] == feedback[i + 1..];
        assert feedback[i] in feedback;
        OnFeedback(feedback[i]);
      }
    }

    method DrainJobs(jobs: seq<Job>)
      requires state.cfg.rtoMin <= state.cfg.rtoMax
      modifies this
      ensures Value() == Run(state.cfg, old(Value()), Submits(jobs))
    {
      for i := 0 to |jobs|
        invariant Run(state.cfg, old(Value()), Submits(jobs)) == Run(state.cfg, Value(), Submits(jobs[i..]))
      {
        assert jobs[i..][0] == jobs[i] && jobs[i..][1..] == jobs[i + 1..];
        assert Submits(jobs[i..])[1..] == Submits(jobs[i + 1..]);
        Enqueue(jobs[i]);
      }
    }

    /** One round of the loop; returns what its turn did, and whether the loop ends. */
    method TakeRound(round: Round) returns (plan: Plan, ended: bool)
      requires state.cfg.rtoMin <= state.cfg.rtoMax && WellTyped(round)
      modifies this, state
      ensures Value() == Run(state.cfg, old(Value()), RoundActions(round, plan))
      ensures Planned(state.cfg, old(Value()), round, plan) && ended == EndsWith(round, plan)
    {
      ghost var cfg, before := state.cfg, Value();
      DrainFeedback(round.feedback);
      DrainJobs(round.jobs);
      ghost var drained := round.feedback + Submits(round.jobs);
      RunConcat(cfg, before, round.feedback, Submits(round.jobs));
      ghost var ready := Value();
      plan := TakeTurn(round.now, round.write);
      RunOne(cfg, ready, Turn(round.now, round.write));
      RunConcat(cfg, before, drained, [Turn(round.now, round.write)]);
      ghost var turned := Value();
      ghost var actions := drained + [Turn(round.now, round.write)];
      assert actions + [] == actions;
      ended := plan.Sleep? && round.wake.Closed?;
      if plan.Sleep? && round.wake.Received? {
        if round.wake.action.Submit? {
          Enqueue(round.wake.action.job);
        } else {
          OnFeedback(round.wake.action);
        }
        RunOne(cfg, turned, round.wake.action);
        RunConcat(cfg, before, actions, [round.wake.action]);
      }
    }

    /** The task: rounds until its handle is dropped. Returns what the turn of each round taken did. */
    method TakeRounds(script: seq<Round>) returns (plans: seq<Plan>)
      requires state.cfg.rtoMin <= state.cfg.rtoMax && AllWellTyped(script)
      modifies this, state
      ensures TakenTo(state.cfg, old(Value()), Value(), script, plans)
      ensures |plans| < |script| ==> !GoesOn(script[..|plans|], plans)
    {
      ghost var cfg, before := state.cfg, Value();
      plans := [];
      while |plans| < |script|
        invariant TakenTo(cfg, before, Value(), script, plans) && GoesOn(script[..|plans|], plans)
        decreases |script| - |plans|
      {
        ghost var here := Value();
        var round := script[|plans|];
        assert round in script;
        var plan, ended := TakeRound(round);
        TakenOneFurther(cfg, before, here, Value(), script, plans, plan);
        plans := plans + [plan];
        if ended {
          return;
        }
      }
    }

    /** The loop has submitted exactly the jobs it received, and handled exactly the responses and `!` it received, in
        order, up to the round in which its handle was dropped. */
    method Loop(script: seq<Round>) returns (plans: seq<Plan>)
      requires state.cfg.rtoMin <= state.cfg.rtoMax && AllWellTyped(script)
      modifies this, state
      ensures TakenTo(state.cfg, old(Value()), Value(), script, plans)
      ensures |plans| < |script| ==> !GoesOn(script[..|plans|], plans)
      ensures past.submitted == old(past.submitted) + JobsReceived(script[..|plans|], plans)
      ensures past.log == old(past.log) + Handled(script[..|plans|], plans)
      ensures FeedbackIn(past.log) == FeedbackIn(old(past.log)) + FeedbackReceived(script[..|plans|], plans)
    {
      ghost var cfg, before := state.cfg, Value();
      plans := TakeRounds(script);
      LoopHandlesAll(cfg, before, script[..|plans|], plans);
    }
  }

  lemma LoopHandlesAll(cfg: Config, s: System, rounds: seq<Round>, plans: seq<Plan>)
    requires cfg.rtoMin <= cfg.rtoMax && |rounds| == |plans| && AllWellTyped(rounds)
    ensures var past := Run(cfg, s, Handled(rounds, plans)).past;
            && past.log == s.past.log + Handled(rounds, plans)
            && past.submitted == s.past.submitted + JobsReceived(rounds, plans)
            && FeedbackIn(past.log) == FeedbackIn(s.past.log) + FeedbackReceived(rounds, plans)
  {
    RunLogs(cfg, s, Handled(rounds, plans));
    AllIsHandled(rounds, plans);
    FeedbackConcat(s.past.log, Handled(rounds, plans));
  }

  lemma TakenOneFurther(cfg: Config, before: System, here: System, after: System, script: seq<Round>,
                        plans: seq<Plan>, plan: Plan)
    requires cfg.rtoMin <= cfg.rtoMax && |plans| < |script| && TakenTo(cfg, before, here, script, plans)
    requires GoesOn(script[..|plans|], plans) && Planned(cfg, here, script[|plans|], plan)
    requires after == Run(cfg, here, RoundActions(script[|plans|], plan))
    ensures TakenTo(cfg, before, after, script, plans + [plan])
    ensures GoesOn(script[..|plans| + 1], plans + [plan]) == !EndsWith(script[|plans|], plan)
  {
    var n, rounds, more := |plans|, script[..|plans|], plans + [plan];
    assert script[..n + 1][..n] == rounds && more[..n] == plans;
    RunConcat(cfg, before, Handled(rounds, plans), RoundActions(script[n], plan));
  }

  lemma RunOne(cfg: Config, s: System, a: Action)
    requires cfg.rtoMin <= cfg.rtoMax
    ensures Run(cfg, s, [a]) == Step(cfg, s, a)
  {
    assert [a][1..] == [];
    assert Run(cfg, Step(cfg, s, a), []) == Step(cfg, s, a);
  }
}
