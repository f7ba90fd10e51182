/** The same pool with every locked section a step of its own, in any order: requests, confirmations, time-outs, and
    the sections of the sweep.

    A machine is one protocol object. Each call of `connection_made` on it empties the tables and starts one more sweep
    task. The program makes that call once on each object. */
module SweepTasks {
  import opened Bytes
  import opened Confirmations
  import opened Dicts
  import opened Retransmits
  import opened Wrappers

  /** Where a sweep task is: `now` is the time it read on waking. */
  datatype Task =
    | Asleep
    | Woken(now: Instant)
    | Checked(now: Instant)
    | Working(now: Instant, abandon: seq<Byte>, freeing: Option<Byte>, retry: seq<Frame>, sending: Option<Frame>)

  datatype Machine = Machine(pool: Pool, tasks: seq<Task>, written: seq<Frame>)

  const START := Machine(EMPTY, [], [])

  datatype Event =
    | Connect
    | Disconnect
    | Confirmed(code: Byte)
    | Freed(code: Byte)
    | CleanUp(now: Instant)
    | Request(now: Instant)
    | Evicted(now: Instant)
    | Wrote(code: Byte, data: seq<Byte>, now: Instant)
    | Advance(task: nat, now: Instant, ok: bool)

  /** The next section of a sweep task, or its write of a frame, which fails if the transport is gone. */
  function TaskStep(pool: Pool, t: Task, now: Instant, ok: bool): (Pool, Task, seq<Frame>) {
    match t
    case Asleep => (pool, Woken(now), [])
    case Woken(read) => (ReleaseTimedOut(pool, now), Checked(read), [])
    case Checked(read) =>
      (pool, Working(read, ToAbandon(pool.pending.values, pool.pending.order, read), None,
                     ToRetry(pool.pending.values, pool.pending.order, read), None), [])
    case Working(read, abandon, freeing, retry, sending) =>
      if sending.Some? then
        if ok then (pool, t.(sending := None), [sending.value]) else (pool, Asleep, [])
      else if freeing.Some? then (Release(pool, freeing.value), t.(freeing := None), [])
      else if abandon != [] then
        (RemovePending(pool, abandon[0]), t.(abandon := abandon[1..], freeing := Some(abandon[0])), [])
      else if retry != [] then
        (MarkRetry(pool, retry[0], read), t.(retry := retry[1..], sending := Some(retry[0])), [])
      else (pool, Asleep, [])
  }

  predicate Possible(m: Machine, e: Event) {
    match e
    case Advance(i, _, _) => i < |m.tasks|
    case Wrote(code, _, _) => code in CONFIRMATION_CODES
    case _ => m.pool.next < CODE_COUNT
  }

  function Step(m: Machine, e: Event): Machine
    requires Possible(m, e)
  {
    match e
    case Connect => m.(pool := EMPTY, tasks := m.tasks + [Asleep])
    case Disconnect => m.(pool := EMPTY)
    case Confirmed(code) => m.(pool := RemovePending(m.pool, code))
    case Freed(code) => m.(pool := Release(m.pool, code))
    case CleanUp(now) => m.(pool := ReleaseTimedOut(m.pool, now))
    case Request(now) => m.(pool := TryAllocate(m.pool, now).1)
    case Evicted(now) => m.(pool := Evict(m.pool, now).1)
    case Wrote(code, data, now) => m.(pool := AddPending(m.pool, code, data, now))
    case Advance(i, now, ok) =>
      var (pool, task, written) := TaskStep(m.pool, m.tasks[i], now, ok);
      Machine(pool, m.tasks[i := task], m.written + written)
  }

  /** A connection made or lost leaves no code in use, no frame pending and the first code next; one that is made brings
      one more task, and the tasks there were go on where they are. */
  lemma ConnectionsStartOver(m: Machine)
    requires Possible(m, Connect)
    ensures forall e | e in [Connect, Disconnect] ::
              var r := Step(m, e);
              && Size(r.pool.inUse) == Size(r.pool.pending) == r.pool.next == 0 && r.written == m.written
              && m.tasks <= r.tasks && |r.tasks| == |m.tasks| + (if e.Connect? then 1 else 0)
              && forall t | t in r.tasks[|m.tasks|..] :: t == Asleep
  {}

  predicate Feasible(m: Machine, events: seq<Event>)
    decreases |events|
  {
    events == [] || (Possible(m, events[0]) && Feasible(Step(m, events[0]), events[1..]))
  }

  function Run(m: Machine, events: seq<Event>): Machine
    requires Feasible(m, events)
    decreases |events|
  {
    if events == [] then m else Run(Step(m, events[0]), events[1..])
  }

  // ---- The invariant --------------------------------------------------------------------

  /** What a task may have to do with a code or a frame. */
  datatype Hold = ListsCode(code: Byte) | Lists(frame: Frame) | InHand(frame: Frame)

  predicate Has(t: Task, h: Hold) {
    t.Working? &&
    match h
    case ListsCode(c) => c in CodesOf(t.retry)
    case Lists(f) => f in t.retry
    case InHand(f) => t.sending == Some(f)
  }

  function Claim(t: Task, h: Hold): nat {
    if Has(t, h) then 1 else 0
  }

  function Tally(tasks: seq<Task>, h: Hold): (n: nat)
    ensures n <= |tasks|
  {
    if tasks == [] then 0 else Claim(tasks[0], h) + Tally(tasks[1..], h)
  }

  lemma {:induction false} TallyAfter(tasks: seq<Task>, i: nat, t: Task, h: Hold)
    requires i < |tasks|
    ensures Tally(tasks[i := t], h) == Tally(tasks, h) - Claim(tasks[i], h) + Claim(t, h)
  {
    if i > 0 {
      TallyAfter(tasks[1..], i - 1, t, h);
      assert tasks[i := t][1..] == tasks[1..][i - 1 := t];
    } else {
      assert tasks[i := t][1..] == tasks[1..];
    }
  }

  /** A task lists a code once, and none that it is giving up. */
  ghost predicate TaskOk(t: Task) {
    t.Working? ==>
      && NoDuplicates(CodesOf(t.retry))
      && forall c | c in CodesOf(t.retry) :: c !in t.abandon && t.freeing != Some(c)
  }

  /** The attempts counted, and those the tasks are about to count, are never more than two plus one for each task. */
  ghost predicate Bounded(pool: Pool, tasks: seq<Task>) {
    forall c | c in pool.pending.values ::
      1 <= pool.pending.values[c].attempts <= 2 + |tasks| - Tally(tasks, ListsCode(c))
  }

  ghost predicate MachineOk(m: Machine) {
    PoolOk(m.pool) && (forall t | t in m.tasks :: TaskOk(t)) && Bounded(m.pool, m.tasks)
  }

  /** A section that only takes frames off the pending table, or adds new ones, keeps the bound. */
  lemma FewerPendingIsBounded(p: Pool, q: Pool, tasks: seq<Task>)
    requires Bounded(p, tasks)
    requires forall c | c in q.pending.values ::
               || q.pending.values[c].attempts == 1
               || (c in p.pending.values && q.pending.values[c] == p.pending.values[c])
    ensures Bounded(q, tasks)
  {}

  lemma PoolStepIsOk(m: Machine, e: Event)
    requires MachineOk(m) && Possible(m, e) && !e.Advance? && !e.Connect?
    ensures MachineOk(Step(m, e))
  {
    if e.CleanUp? {
      CleanupReleasesTheOldest(m.pool, e.now);
    } else if e.Request? {
      TryHandsOut(m.pool, e.now);
    } else if e.Evicted? {
      EvictHandsOut(m.pool, e.now);
    }
    FewerPendingIsBounded(m.pool, Step(m, e).pool, m.tasks);
  }

  lemma ConnectIsOk(m: Machine)
    requires MachineOk(m)
    ensures MachineOk(Step(m, Connect))
  {}

  /** A section does not raise a code's attempts together with the task's claim to one more, unless the task has
      just found it with less than three. */
  predicate Counts(p: Pool, t: Task, q: Pool, u: Task, c: Byte) {
    c in q.pending.values ==>
      && c in p.pending.values
      && p.pending.values[c].attempts <= q.pending.values[c].attempts
      && ((Has(u, ListsCode(c)) && q.pending.values[c].attempts < MAX_ATTEMPTS)
          || q.pending.values[c].attempts + Claim(u, ListsCode(c))
             <= p.pending.values[c].attempts + Claim(t, ListsCode(c)))
  }

  lemma TailCodes(frames: seq<Frame>, c: Byte)
    requires frames != [] && NoDuplicates(CodesOf(frames))
    ensures CodesOf(frames[1..]) == CodesOf(frames)[1..] && NoDuplicates(CodesOf(frames[1..]))
    ensures c in CodesOf(frames) <==> c == frames[0].code || c in CodesOf(frames[1..])
    ensures frames[0].code !in CodesOf(frames[1..])
  {
    assert CodesOf(frames[1..]) == CodesOf(frames)[1..];
    HeadOrTail(CodesOf(frames), c);
  }

  lemma HeadOrTail(s: seq<Byte>, c: Byte)
    requires s != [] && NoDuplicates(s)
    ensures c in s <==> c == s[0] || c in s[1..]
    ensures s[0] !in s[1..] && NoDuplicates(s[1..])
  {}

  /** What a task has just collected: each code to be written again has attempts left, each one given up has none. */
  lemma CollectIsOk(p: Pool, now: Instant)
    ensures TaskOk(Working(now, ToAbandon(p.pending.values, p.pending.order, now), None,
                           ToRetry(p.pending.values, p.pending.order, now), None))
  {
    RetryListIsDistinct(p.pending.values, p.pending.order, now);
    forall c | c in CodesOf(ToRetry(p.pending.values, p.pending.order, now))
      ensures c !in ToAbandon(p.pending.values, p.pending.order, now)
    {
      RetryListHas(p.pending.values, p.pending.order, now, c);
    }
  }

  lemma MarkIsOk(t: Task)
    requires t.Working? && TaskOk(t) && t.retry != []
    ensures TaskOk(t.(retry := t.retry[1..], sending := Some(t.retry[0])))
  {
    TailCodes(t.retry, 0);
    assert forall c | c in CodesOf(t.retry[1..]) :: c in CodesOf(t.retry);
  }

  lemma TaskStepIsOk(pool: Pool, t: Task, now: Instant, ok: bool)
    requires TaskOk(t) && PoolOk(pool)
    ensures var (q, u, _) := TaskStep(pool, t, now, ok); TaskOk(u) && PoolOk(q)
  {
    if t.Woken? {
      CleanupReleasesTheOldest(pool, now);
    } else if t.Checked? {
      CollectIsOk(pool, t.now);
    } else if t.Working? && t.sending.None? && t.freeing.None? && t.abandon == [] && t.retry != [] {
      MarkIsOk(t);
    }
  }

  lemma TaskStepCounts(pool: Pool, t: Task, now: Instant, ok: bool, c: Byte)
    requires TaskOk(t)
    ensures var (q, u, _) := TaskStep(pool, t, now, ok); Counts(pool, t, q, u, c)
  {
    if t.Checked? {
      RetryListHas(pool.pending.values, pool.pending.order, t.now, c);
    } else if t.Working? && t.sending.None? && t.freeing.None? && t.abandon == [] && t.retry != [] {
      TailCodes(t.retry, c);
    }
  }

  lemma AdvanceIsOk(m: Machine, i: nat, now: Instant, ok: bool)
    requires MachineOk(m) && i < |m.tasks|
    ensures MachineOk(Step(m, Advance(i, now, ok)))
  {
    var n := Step(m, Advance(i, now, ok));
    var t := m.tasks[i];
    assert TaskOk(t);
    TaskStepIsOk(m.pool, t, now, ok);
    forall c | c in n.pool.pending.values
      ensures 1 <= n.pool.pending.values[c].attempts <= 2 + |n.tasks| - Tally(n.tasks, ListsCode(c))
    {
      TaskStepCounts(m.pool, t, now, ok, c);
      TallyAfter(m.tasks, i, n.tasks[i], ListsCode(c));
    }
  }

  lemma StepIsOk(m: Machine, e: Event)
    requires MachineOk(m) && Possible(m, e)
    ensures MachineOk(Step(m, e)) && |Step(m, e).tasks| == |m.tasks| + if e.Connect? then 1 else 0
  {
    match e {
      case Advance(i, now, ok) => AdvanceIsOk(m, i, now, ok);
      case Connect => ConnectIsOk(m);
      case _ => PoolStepIsOk(m, e);
    }
  }

  lemma {:induction false} RunIsOk(m: Machine, events: seq<Event>)
    requires MachineOk(m) && Feasible(m, events)
    ensures MachineOk(Run(m, events))
    decreases |events|
  {
    if events != [] {
      StepIsOk(m, events[0]);
      RunIsOk(Step(m, events[0]), events[1..]);
    }
  }

  // ---- What it means --------------------------------------------------------------------

  /** In every reachable state a pending frame has been attempted at least once, and at most twice plus once for each
      sweep task of its object. */
  lemma AttemptsAreBounded(events: seq<Event>, c: Byte)
    requires Feasible(START, events) && c in Run(START, events).pool.pending.values
    ensures var m := Run(START, events);
            && 1 <= m.pool.pending.values[c].attempts <= 2 + |m.tasks|
            && (|m.tasks| == 1 ==> m.pool.pending.values[c].attempts <= MAX_ATTEMPTS)
  {
    RunIsOk(START, events);
  }

  /** Whatever ran between the sections of a request, the code it ends with is one of the twenty and recorded as in
      use, and the next position is one of the twenty. */
  lemma RequestsAlwaysSucceed(events: seq<Event>, now: Instant)
    requires Feasible(START, events)
    ensures var p := Run(START, events).pool;
            && p.next < CODE_COUNT && Size(p.inUse) <= CODE_COUNT
            && (TryAllocate(p, now).0.Some? ==> HandedOut(p, TryAllocate(p, now).1, TryAllocate(p, now).0.value, now))
            && HandedOut(p, Evict(p, now).1, Evict(p, now).0, now)
  {
    RunIsOk(START, events);
    var p := Run(START, events).pool;
    AtMostTwenty(p);
    TryHandsOut(p, now);
    EvictHandsOut(p, now);
  }

  // ---- The program ----------------------------------------------------------------------

  /** Every connection gets a protocol object of its own, on which `connection_made` is called once. Objects of lost
      connections live on with their sweep task. */
  datatype ProgramEvent =
    | NewConnection
    | OnObject(target: nat, event: Event)

  predicate ProgramAllows(objects: seq<Machine>, e: ProgramEvent) {
    e.OnObject? ==> e.target < |objects| && !e.event.Connect? && Possible(objects[e.target], e.event)
  }

  function ProgramStep(objects: seq<Machine>, e: ProgramEvent): seq<Machine>
    requires ProgramAllows(objects, e)
  {
    match e
    case NewConnection => objects + [Step(START, Connect)]
    case OnObject(k, event) => objects[k := Step(objects[k], event)]
  }

  predicate ProgramFeasible(objects: seq<Machine>, events: seq<ProgramEvent>)
    decreases |events|
  {
    events == [] ||
    (ProgramAllows(objects, events[0]) && ProgramFeasible(ProgramStep(objects, events[0]), events[1..]))
  }

  function ProgramRun(objects: seq<Machine>, events: seq<ProgramEvent>): seq<Machine>
    requires ProgramFeasible(objects, events)
    decreases |events|
  {
    if events == [] then objects else ProgramRun(ProgramStep(objects, events[0]), events[1..])
  }

  ghost predicate OneTaskEach(objects: seq<Machine>) {
    forall m | m in objects :: MachineOk(m) && |m.tasks| == 1
  }

  lemma {:induction false} ProgramKeepsOneTaskEach(objects: seq<Machine>, events: seq<ProgramEvent>)
    requires OneTaskEach(objects) && ProgramFeasible(objects, events)
    ensures OneTaskEach(ProgramRun(objects, events))
    decreases |events|
  {
    if events != [] {
      var after := ProgramStep(objects, events[0]);
      match events[0] {
        case NewConnection => StepIsOk(START, Connect);
        case OnObject(k, event) =>
          assert objects[k] in objects;
          StepIsOk(objects[k], event);
      }
      forall m | m in after
        ensures MachineOk(m) && |m.tasks| == 1
      {
        assert m in objects || m == after[|after| - 1] || (events[0].OnObject? && m == after[events[0].target]);
      }
      ProgramKeepsOneTaskEach(after, events[1..]);
    }
  }

  /** However often the connection is lost and made again, no frame of any object ever counts more than three
      attempts. */
  lemma ProgramKeepsTheLimit(events: seq<ProgramEvent>, m: Machine, c: Byte)
    requires ProgramFeasible([], events) && m in ProgramRun([], events) && c in m.pool.pending.values
    ensures 1 <= m.pool.pending.values[c].attempts <= MAX_ATTEMPTS
  {
    ProgramKeepsOneTaskEach([], events);
  }
}
